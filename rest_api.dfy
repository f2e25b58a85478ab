/**
 * da-ayr-rest-api/aws_lambda.py: the search a signed-in user sends to
 * OpenSearch, restricted to the records whose ayr_role is one of the
 * user's Keycloak realm roles.
 */
module RestApi {
  import opened Wrappers
  import opened Text
  import opened Dicts
  import opened Json
  import opened Environ
  import opened OpenSearchHost

  const KeyBody := "body"
  const KeyOpenSearchIndex := "opensearch_index"
  const KeyAyrSearch := "ayr_search"
  const KeyRequestContext := "requestContext"
  const KeyAuthorizer := "authorizer"
  const KeyKeycloakResponse := "keycloak_response"
  const KeyRealmAccess := "realm_access"
  const KeyRoles := "roles"
  const KeyMustMatchPhraseList := "must_match_phrase_list"
  const SearchPath := "_search?pretty=true"

  /** json.loads, which the model takes as given: it decodes a str and fails on anything else. */
  type Loads = Json -> Result<Json, Error>

  /**
   * get_event_key: the value at the top level of the event, else the value
   * in the JSON-encoded `body`, else ''.
   */
  function EventKey(event: Event, key: string, loads: Loads): (r: Result<Json, Error>)
    ensures HasKey(event, key) ==> r == At(event, key)
    ensures !HasKey(event, key) && !HasKey(event, KeyBody) ==> r == Success(JStr(""))
    ensures !HasKey(event, key) && HasKey(event, KeyBody) && loads(At(event, KeyBody).value).Success? ==>
      var body := loads(At(event, KeyBody).value).value;
      body.JObj? ==> r == if HasKey(body.fields, key) then At(body.fields, key) else Success(JStr(""))
    ensures !HasKey(event, key) && HasKey(event, KeyBody) && loads(At(event, KeyBody).value).Failure? ==>
      r == Failure(loads(At(event, KeyBody).value).error)
  {
    if HasKey(event, key) then At(event, key)
    else if HasKey(event, KeyBody) then
      var body :- loads(At(event, KeyBody).value);
      var found :- Contains(body, key);
      if found then Member(body, key) else Success(JStr(""))
    else Success(JStr(""))
  }

  /**
   * get_opensearch_index: OPENSEARCH_INDEX when it is set; otherwise the
   * same top-level-then-body lookup as get_event_key, for opensearch_index.
   */
  function OpenSearchIndex(event: Event, env: Env, loads: Loads): (r: Result<Json, Error>)
    ensures EnvOpenSearchIndex in env ==> r == Success(JStr(env[EnvOpenSearchIndex]))
    ensures EnvOpenSearchIndex !in env ==> r == EventKey(event, KeyOpenSearchIndex, loads)
  {
    match Getenv(env, EnvOpenSearchIndex)
    case Success(index) => Success(JStr(index))
    case Failure(_) => EventKey(event, KeyOpenSearchIndex, loads)
  }

  /** The index named in the environment wins over one in the request, wherever it sits. */
  lemma EnvIndexWins(event: Event, env: Env, loads: Loads, index: string)
    ensures OpenSearchIndex(event, env[EnvOpenSearchIndex := index], loads) == Success(JStr(index))
  {
  }

  /** A top-level value wins over one in the body. */
  lemma TopLevelWins(event: Event, key: string, value: Json, loads: Loads)
    requires !HasKey(event, key)
    ensures EventKey([(key, value)] + event, key, loads) == Success(value)
  {
    assert Lookup([(key, value)] + event, key) == Some(value);
  }

  /** Python's len(): a str, a list or a dict; a TypeError for anything else. */
  function Len(j: Json): (r: Result<nat, Error>)
    ensures (j.JNull? || j.JBool? || j.JInt?) <==> r.Failure?
    ensures j.JStr? ==> r == Success(|j.s|)
    ensures j.JArr? ==> r == Success(|j.items|)
    ensures j.JObj? ==> r == Success(|j.fields|)
  {
    match j
    case JStr(s) => Success(|s|)
    case JArr(items) => Success(|items|)
    case JObj(fields) => Success(|fields|)
    case _ => Failure(TypeError)
  }

  /**
   * The search URL of lambda_handler: the host URL, then the index and a
   * '/' when the index is not empty, then '_search?pretty=true'. A
   * non-empty list gets '/' as one more element (`+=` extends a list), a
   * non-empty dict cannot take `+= '/'`, and an empty list or dict is
   * formatted into the URL as it prints.
   */
  function SearchUrl(hostUrl: string, index: Json): (r: Result<string, Error>)
    ensures index.JStr? && index.s != "" ==> r == Success(hostUrl + index.s + "/" + SearchPath)
    ensures index == JStr("") ==> r == Success(hostUrl + SearchPath)
    ensures index.JArr? && index.items != [] ==>
      r == Success(hostUrl + StrOf(JArr(index.items + [JStr("/")])) + SearchPath)
    ensures (index.JNull? || index.JBool? || index.JInt?) ==> r == Failure(TypeError)
    ensures index.JObj? && index.fields != [] ==> r == Failure(TypeError)
    ensures r.Success? ==> hostUrl <= r.value && EndsWith(r.value, SearchPath)
  {
    var n :- Len(index);
    if n > 0 then
      match index
      case JStr(s) =>
        assert hostUrl + (s + "/") + SearchPath == hostUrl + s + "/" + SearchPath;
        Success(Slashed(hostUrl, s + "/"))
      case JArr(items) => Success(Slashed(hostUrl, StrOf(JArr(items + [JStr("/")]))))
      case _ => Failure(TypeError)
    else
      assert index == JStr("") ==> hostUrl + StrOf(index) == hostUrl;
      Success(Slashed(hostUrl, StrOf(index)))
  }

  /** hostUrl + index + '_search?pretty=true'. */
  function Slashed(hostUrl: string, index: string): (url: string)
    ensures url == hostUrl + index + SearchPath
    ensures hostUrl <= url && EndsWith(url, SearchPath)
  {
    var url := hostUrl + index + SearchPath;
    assert url == hostUrl + (index + SearchPath);
    assert url[|url| - |SearchPath|..] == SearchPath;
    url
  }

  /** The index can be read back from the URL between the host URL and '/_search?pretty=true'. */
  lemma SearchUrlIndex(hostUrl: string, index: string)
    requires index != ""
    ensures RemoveSuffix(RemovePrefix(SearchUrl(hostUrl, JStr(index)).value, hostUrl), "/" + SearchPath) == index
  {
    var url := SearchUrl(hostUrl, JStr(index)).value;
    assert url == hostUrl + (index + ("/" + SearchPath));
    RemovePrefixOfConcat(hostUrl, index + ("/" + SearchPath));
    RemoveSuffixOfConcat(index, "/" + SearchPath);
  }

  /** An empty list as index is formatted as '[]' into the URL. */
  lemma SearchUrlEmptyList(hostUrl: string)
    ensures SearchUrl(hostUrl, JArr([])) == Success(hostUrl + "[]" + SearchPath)
  {
    assert ReprItems(JArr([]), 0) == "";
    assert StrOf(JArr([])) == "[]";
  }

  /**
   * get_keycloak_context_realm_roles: requestContext, then authorizer, then
   * keycloak_response must be present, in that nesting order; the response
   * is decoded and its realm_access.roles returned. `missing` is what the
   * function raises for the first key that is absent.
   */
  function KeycloakRealmRoles(event: Event, loads: Loads, missing: string -> Error): (r: Result<Json, Error>)
    ensures !HasKey(event, KeyRequestContext) ==> r == Failure(missing(KeyRequestContext))
    ensures r.Success? ==> HasKey(event, KeyRequestContext) && HasAuthorizerResponse(Lookup(event, KeyRequestContext).value)
  {
    if !HasKey(event, KeyRequestContext) then Failure(missing(KeyRequestContext))
    else ContextRealmRoles(At(event, KeyRequestContext).value, loads, missing)
  }

  /** requestContext['authorizer']['keycloak_response'] exists. */
  predicate HasAuthorizerResponse(requestContext: Json) {
    && HasMember(requestContext, KeyAuthorizer)
    && HasMember(Lookup(requestContext.fields, KeyAuthorizer).value, KeyKeycloakResponse)
  }

  /** The part of get_keycloak_context_realm_roles below event['requestContext']. */
  function ContextRealmRoles(requestContext: Json, loads: Loads, missing: string -> Error): (r: Result<Json, Error>)
    ensures r.Success? ==> HasAuthorizerResponse(requestContext)
  {
    var hasAuthorizer :- Contains(requestContext, KeyAuthorizer);
    if !hasAuthorizer then Failure(missing(KeyAuthorizer))
    else
      var authorizer :- Member(requestContext, KeyAuthorizer);
      var hasResponse :- Contains(authorizer, KeyKeycloakResponse);
      if !hasResponse then Failure(missing(KeyKeycloakResponse))
      else
        var response :- Member(authorizer, KeyKeycloakResponse);
        var decoded :- loads(response);
        var realmAccess :- Member(decoded, KeyRealmAccess);
        Member(realmAccess, KeyRoles)
  }

  /** As written, the function raises an f-string, which Python rejects with a TypeError. */
  function RealmRolesAsWritten(event: Event, loads: Loads): (r: Result<Json, Error>)
    ensures !HasKey(event, KeyRequestContext) ==> r == Failure(TypeError)
    ensures r.Success? ==> HasKey(event, KeyRequestContext) && HasAuthorizerResponse(Lookup(event, KeyRequestContext).value)
  {
    KeycloakRealmRoles(event, loads, _ => TypeError)
  }

  /** As evidently intended: an error that names the missing key. */
  function RealmRoles(event: Event, loads: Loads): (r: Result<Json, Error>)
    ensures !HasKey(event, KeyRequestContext) ==> r == Failure(NoKeycloakContext(KeyRequestContext))
    ensures r.Success? ==> HasKey(event, KeyRequestContext) && HasAuthorizerResponse(Lookup(event, KeyRequestContext).value)
  {
    KeycloakRealmRoles(event, loads, k => NoKeycloakContext(k))
  }

  /** The first key missing in nesting order is the one reported; with all three present, the roles are read from the decoded response. */
  lemma RealmRolesMissing(event: Event, loads: Loads)
    ensures !HasKey(event, KeyRequestContext) ==> RealmRoles(event, loads) == Failure(NoKeycloakContext(KeyRequestContext))
    ensures HasKey(event, KeyRequestContext) ==>
      var context := At(event, KeyRequestContext).value;
      && (context.JObj? && !HasKey(context.fields, KeyAuthorizer) ==>
            RealmRoles(event, loads) == Failure(NoKeycloakContext(KeyAuthorizer)))
      && (HasMember(context, KeyAuthorizer) ==>
            var authorizer := At(context.fields, KeyAuthorizer).value;
            && (authorizer.JObj? && !HasKey(authorizer.fields, KeyKeycloakResponse) ==>
                  RealmRoles(event, loads) == Failure(NoKeycloakContext(KeyKeycloakResponse)))
            && (HasMember(authorizer, KeyKeycloakResponse) ==>
                  var decoded := loads(At(authorizer.fields, KeyKeycloakResponse).value);
                  RealmRoles(event, loads) ==
                    if decoded.Failure? then Failure(decoded.error)
                    else match Member(decoded.value, KeyRealmAccess)
                         case Failure(e) => Failure(e)
                         case Success(realmAccess) => Member(realmAccess, KeyRoles)))
  {
  }

  /** Roles are read from requestContext only: nothing else in the event (its body included) can change them. */
  lemma RealmRolesFromContext(e1: Event, e2: Event, loads: Loads)
    requires Lookup(e1, KeyRequestContext) == Lookup(e2, KeyRequestContext)
    ensures RealmRoles(e1, loads) == RealmRoles(e2, loads)
  {
    assert HasKey(e1, KeyRequestContext) == HasKey(e2, KeyRequestContext);
    if HasKey(e1, KeyRequestContext) {
      assert At(e1, KeyRequestContext) == At(e2, KeyRequestContext);
    }
  }

  /**
   * The two agree except where the intended error names a missing key:
   * there the code as written raises a TypeError instead.
   */
  lemma RealmRolesAsWrittenLosesMessage(event: Event, loads: Loads)
    ensures || RealmRolesAsWritten(event, loads) == RealmRoles(event, loads)
            || (&& RealmRolesAsWritten(event, loads) == Failure(TypeError)
                && RealmRoles(event, loads) in {Failure(NoKeycloakContext(KeyRequestContext)),
                                                Failure(NoKeycloakContext(KeyAuthorizer)),
                                                Failure(NoKeycloakContext(KeyKeycloakResponse))})
  {
  }

  /** An event with no requestContext: the message is lost. */
  lemma RealmRolesAsWrittenNoContext(loads: Loads)
    ensures RealmRolesAsWritten([], loads) == Failure(TypeError)
    ensures RealmRoles([], loads) == Failure(NoKeycloakContext(KeyRequestContext))
  {
  }

  /** {"match_phrase": phrase} */
  function MatchPhrase(phrase: Json): Json {
    JObj([("match_phrase", phrase)])
  }

  /** {"match_phrase": {"ayr_role": role}} */
  function RoleClause(role: Json): Json {
    MatchPhrase(JObj([("ayr_role", role)]))
  }

  /** One clause per element, in order. */
  function Clauses(clause: Json -> Json, xs: seq<Json>): (r: seq<Json>)
    ensures |r| == |xs|
    ensures forall i :: 0 <= i < |xs| ==> r[i] == clause(xs[i])
  {
    if xs == [] then [] else Clauses(clause, xs[..|xs| - 1]) + [clause(xs[|xs| - 1])]
  }

  /** Appending an element's clause extends the clauses of the prefix. */
  lemma ClausesSnoc(clause: Json -> Json, xs: seq<Json>, i: nat)
    requires i < |xs|
    ensures Clauses(clause, xs[..i + 1]) == Clauses(clause, xs[..i]) + [clause(xs[i])]
  {
    assert xs[..i + 1][..i] == xs[..i];
  }

  /** The query dict get_opensearch_query builds. */
  function Query(must: seq<Json>, should: seq<Json>): Json {
    JObj([("query", JObj([("bool", JObj(BoolFields(must, should)))]))])
  }

  /** The entries of the bool query. */
  function BoolFields(must: seq<Json>, should: seq<Json>): Dict<Json> {
    [("must", JArr(must)), ("should", JArr(should)), ("minimum_should_match", JInt(1))]
  }

  /** query['query']['bool'] is the bool query's entries. */
  lemma BoolClauseFields(must: seq<Json>, should: seq<Json>, name: string)
    ensures BoolClause(Query(must, should), name) == Member(JObj(BoolFields(must, should)), name)
  {
    var fields := BoolFields(must, should);
    assert Lookup([("query", JObj([("bool", JObj(fields))]))], "query") == Some(JObj([("bool", JObj(fields))]));
    assert Lookup([("bool", JObj(fields))], "bool") == Some(JObj(fields));
  }

  /** query['query']['bool'][name] */
  function BoolClause(query: Json, name: string): Result<Json, Error> {
    var inner :- Member(query, "query");
    var boolQuery :- Member(inner, "bool");
    Member(boolQuery, name)
  }

  /** The three entries of the bool query are where OpenSearch reads them. */
  lemma QueryFields(must: seq<Json>, should: seq<Json>)
    ensures BoolClause(Query(must, should), "must") == Success(JArr(must))
    ensures BoolClause(Query(must, should), "should") == Success(JArr(should))
    ensures BoolClause(Query(must, should), "minimum_should_match") == Success(JInt(1))
  {
    var fields := BoolFields(must, should);
    BoolClauseFields(must, should, "must");
    BoolClauseFields(must, should, "should");
    BoolClauseFields(must, should, "minimum_should_match");
    assert Member(JObj(fields), "must") == Success(JArr(must)) by {
      LookupFirst(fields, "must", 0);
    }
    assert Member(JObj(fields), "should") == Success(JArr(should)) by {
      assert "should" != "must" by { assert "should"[0] != "must"[0]; }
      LookupFirst(fields, "should", 1);
    }
    assert Member(JObj(fields), "minimum_should_match") == Success(JInt(1)) by {
      assert "minimum_should_match" != "must" by { assert "minimum_should_match"[1] != "must"[1]; }
      assert "minimum_should_match" != "should" by { assert "minimum_should_match"[0] != "should"[0]; }
      LookupFirst(fields, "minimum_should_match", 2);
    }
  }

  /**
   * get_opensearch_query, as a value: one must clause per phrase of
   * ayr_search['must_match_phrase_list'] and one should clause per role.
   */
  function OpenSearchQuery(roleList: Json, ayrSearch: Json): (r: Result<Json, Error>)
    ensures r.Success? ==> Iterate(roleList).Success?
    ensures r.Success? ==> BoolClause(r.value, "should") == Success(JArr(Clauses(RoleClause, Iterate(roleList).value)))
    ensures r.Success? ==> BoolClause(r.value, "minimum_should_match") == Success(JInt(1))
  {
    var phraseList :- Member(ayrSearch, KeyMustMatchPhraseList);
    var phrases :- Iterate(phraseList);
    var roles :- Iterate(roleList);
    QueryFields(Clauses(MatchPhrase, phrases), Clauses(RoleClause, roles));
    Success(Query(Clauses(MatchPhrase, phrases), Clauses(RoleClause, roles)))
  }

  /** get_opensearch_query: the two loops that append the must and the should clauses. */
  method GetOpenSearchQuery(roleList: Json, ayrSearch: Json) returns (r: Result<Json, Error>)
    ensures r == OpenSearchQuery(roleList, ayrSearch)
  {
    var phraseList := Member(ayrSearch, KeyMustMatchPhraseList);
    if phraseList.Failure? {
      return Failure(phraseList.error);
    }
    var phrases := Iterate(phraseList.value);
    if phrases.Failure? {
      return Failure(phrases.error);
    }
    var ps := phrases.value;
    var must: seq<Json> := [];
    var i := 0;
    while i < |ps|
      invariant 0 <= i <= |ps|
      invariant must == Clauses(MatchPhrase, ps[..i])
    {
      ClausesSnoc(MatchPhrase, ps, i);
      must := must + [MatchPhrase(ps[i])];
      i := i + 1;
    }
    assert ps[..i] == ps;
    var roles := Iterate(roleList);
    if roles.Failure? {
      return Failure(roles.error);
    }
    var rs := roles.value;
    var should: seq<Json> := [];
    var j := 0;
    while j < |rs|
      invariant 0 <= j <= |rs|
      invariant should == Clauses(RoleClause, rs[..j])
    {
      ClausesSnoc(RoleClause, rs, j);
      should := should + [RoleClause(rs[j])];
      j := j + 1;
    }
    assert rs[..j] == rs;
    return Success(Query(must, should));
  }

  /**
   * The query's must list matches the phrases one for one and in order,
   * its should list the roles, and minimum_should_match is 1.
   */
  lemma OpenSearchQueryClauses(roleList: Json, ayrSearch: Json)
    requires OpenSearchQuery(roleList, ayrSearch).Success?
    ensures Member(ayrSearch, KeyMustMatchPhraseList).Success?
    ensures Iterate(Member(ayrSearch, KeyMustMatchPhraseList).value).Success? && Iterate(roleList).Success?
    ensures var query := OpenSearchQuery(roleList, ayrSearch).value;
      var phrases := Iterate(Member(ayrSearch, KeyMustMatchPhraseList).value).value;
      var roles := Iterate(roleList).value;
      && BoolClause(query, "must").Success? && BoolClause(query, "must").value.JArr?
      && BoolClause(query, "should").Success? && BoolClause(query, "should").value.JArr?
      && var must := BoolClause(query, "must").value.items;
      && var should := BoolClause(query, "should").value.items;
      && |must| == |phrases| && (forall i :: 0 <= i < |must| ==> must[i] == MatchPhrase(phrases[i]))
      && |should| == |roles| && (forall i :: 0 <= i < |should| ==> should[i] == RoleClause(roles[i]))
      && BoolClause(query, "minimum_should_match") == Success(JInt(1))
  {
    var phrases := Iterate(Member(ayrSearch, KeyMustMatchPhraseList).value).value;
    var roles := Iterate(roleList).value;
    QueryFields(Clauses(MatchPhrase, phrases), Clauses(RoleClause, roles));
  }

  /** A user with no roles gets no should clause while one is still demanded: the query matches no record. */
  lemma NoRolesMatchNothing(roleList: Json, ayrSearch: Json)
    requires OpenSearchQuery(roleList, ayrSearch).Success?
    requires Iterate(roleList) == Success([])
    ensures BoolClause(OpenSearchQuery(roleList, ayrSearch).value, "should") == Success(JArr([]))
    ensures BoolClause(OpenSearchQuery(roleList, ayrSearch).value, "minimum_should_match") == Success(JInt(1))
  {
    var phrases := Iterate(Member(ayrSearch, KeyMustMatchPhraseList).value).value;
    QueryFields(Clauses(MatchPhrase, phrases), Clauses(RoleClause, []));
  }

  /** The query fails exactly when ayr_search has no phrase list, or the list or the roles cannot be iterated. */
  lemma OpenSearchQueryFails(roleList: Json, ayrSearch: Json)
    ensures OpenSearchQuery(roleList, ayrSearch).Failure? <==>
      || Member(ayrSearch, KeyMustMatchPhraseList).Failure?
      || Iterate(Member(ayrSearch, KeyMustMatchPhraseList).value).Failure?
      || Iterate(roleList).Failure?
  {
  }

  /**
   * lambda_handler up to the POST: connection settings, search URL, the
   * user's search and roles, and the query. The roles are read as the code
   * is written, so a missing Keycloak context is a bare TypeError.
   */
  function SearchRequest(event: Event, env: Env, parameters: ParameterStore, loads: Loads): (r: Result<HttpRequest, Error>)
    ensures r.Success? ==> OpenSearchUrl(env).Success? && OpenSearchUrl(env).value <= r.value.url && EndsWith(r.value.url, SearchPath)
    ensures r.Success? ==>
      && RealmRolesAsWritten(event, loads).Success?
      && var roles := Iterate(RealmRolesAsWritten(event, loads).value);
      && roles.Success?
      && BoolClause(r.value.data, "should") == Success(JArr(Clauses(RoleClause, roles.value)))
      && BoolClause(r.value.data, "minimum_should_match") == Success(JInt(1))
    ensures r.Success? ==>
      && OpenConnection(env, parameters).Success? && OpenSearchIndex(event, env, loads).Success?
      && SearchUrl(OpenSearchUrl(env).value, OpenSearchIndex(event, env, loads).value) == Success(r.value.url)
    ensures r.Success? ==>
      && EventKey(event, KeyAyrSearch, loads).Success?
      && OpenSearchQuery(RealmRolesAsWritten(event, loads).value, EventKey(event, KeyAyrSearch, loads).value)
         == Success(r.value.data)
    ensures r.Success? ==>
      && r.value.verify == OpenConnection(env, parameters).value.verify
      && r.value.user == OpenConnection(env, parameters).value.user
      && r.value.password == OpenConnection(env, parameters).value.password
      && r.value.headers == JsonHeaders
    ensures !HasKey(event, KeyRequestContext) ==> r.Failure?
  {
    var c :- OpenConnection(env, parameters);
    var index :- OpenSearchIndex(event, env, loads);
    var url :- SearchUrl(c.hostUrl, index);
    var ayrSearch :- EventKey(event, KeyAyrSearch, loads);
    var roles :- RealmRolesAsWritten(event, loads);
    var query :- OpenSearchQuery(roles, ayrSearch);
    Success(HttpRequest(url, c.verify, c.user, c.password, JsonHeaders, query))
  }

}
