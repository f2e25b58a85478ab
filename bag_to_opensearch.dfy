/**
 * da-ayr-bag-to-opensearch/lambda_function.py: the PUT request that stores
 * a bag's record in OpenSearch under the bag's Internal-Sender-Identifier.
 */
module BagToOpenSearch {
  import opened Wrappers
  import opened Text
  import opened Dicts
  import opened Json
  import opened Environ
  import opened BagFileMapper
  import opened OpenSearchHost

  const KeyAyrRole := "ayr_role"
  const KeyBagS3Url := "bag_s3_url"
  const KeyBagData := "bag_data"
  const KeyInternalSenderIdentifier := "Internal-Sender-Identifier"

  /** The keys validate_event requires, in the order it checks them. */
  const EventKeys := [KeyAyrRole, KeyBagS3Url, KeyBagData]

  /** validate_event: the first required key that is missing is reported. */
  function ValidateEvent(event: Event): (r: Outcome)
    ensures r.Success? <==> forall i :: 0 <= i < |EventKeys| ==> HasKey(event, EventKeys[i])
    ensures r.Failure? ==>
      exists i :: && 0 <= i < |EventKeys|
                  && r.error == OpenSearchError(EventKeys[i])
                  && !HasKey(event, EventKeys[i])
                  && forall j :: 0 <= j < i ==> HasKey(event, EventKeys[j])
  {
    assert EventKeys[0] == KeyAyrRole && EventKeys[1] == KeyBagS3Url && EventKeys[2] == KeyBagData;
    if !HasKey(event, KeyAyrRole) then Failure(OpenSearchError(KeyAyrRole))
    else if !HasKey(event, KeyBagS3Url) then Failure(OpenSearchError(KeyBagS3Url))
    else if !HasKey(event, KeyBagData) then Failure(OpenSearchError(KeyBagData))
    else Success(())
  }

  /** event['bag_data']['bag-info.txt']['Internal-Sender-Identifier']: the document id. */
  function InsertId(event: Event): (r: Result<Json, Error>)
    ensures r.Failure? ==> r.error.KeyError? || r.error == TypeError
    ensures r.Success? ==> var bagData := Lookup(event, KeyBagData);
      && bagData.Some? && bagData.value.JObj?
      && var bagInfo := Lookup(bagData.value.fields, BagInfoTxt);
      && bagInfo.Some? && bagInfo.value.JObj?
      && Lookup(bagInfo.value.fields, KeyInternalSenderIdentifier) == Some(r.value)
  {
    var bagData :- At(event, KeyBagData);
    var bagInfo :- Member(bagData, BagInfoTxt);
    Member(bagInfo, KeyInternalSenderIdentifier)
  }

  /** f'{opensearch_host_url}{opensearch_index}/_doc/{opensearch_insert_id}' */
  function DocUrl(hostUrl: string, index: string, id: string): (url: string)
    ensures hostUrl <= url && EndsWith(url, "/_doc/" + id)
  {
    var url := hostUrl + index + "/_doc/" + id;
    assert url == hostUrl + (index + ("/_doc/" + id));
    assert url[|url| - |"/_doc/" + id|..] == "/_doc/" + id;
    url
  }

  /**
   * The request lambda_handler sends, as the code is written: it never
   * calls validate_event.
   */
  function UpsertRequest(event: Event, env: Env, parameters: ParameterStore): (r: Result<HttpRequest, Error>)
    ensures r.Success? ==> InsertId(event).Success? && r.value.data == JObj(event) && r.value.headers == JsonHeaders
  {
    var c :- OpenConnection(env, parameters);
    var index :- Getenv(env, EnvOpenSearchIndex);
    var id :- InsertId(event);
    Success(HttpRequest(DocUrl(c.hostUrl, index, StrOf(id)), c.verify, c.user, c.password, JsonHeaders, JObj(event)))
  }

  /**
   * lambda_handler with the validation its validate_event exists for, as
   * the other lambdas of the pipeline do first.
   */
  function ValidatedUpsertRequest(event: Event, env: Env, parameters: ParameterStore): (r: Result<HttpRequest, Error>)
    ensures r.Success? ==> ValidateEvent(event).Success? && r.value.data == JObj(event)
    ensures ValidateEvent(event).Success? ==> r == UpsertRequest(event, env, parameters)
  {
    var _ :- ValidateEvent(event);
    UpsertRequest(event, env, parameters)
  }

  /**
   * The request goes to host URL + index + '/_doc/' + id, with the
   * certificate check setting, and carries the whole event as its body.
   */
  lemma UpsertRequestTarget(event: Event, env: Env, parameters: ParameterStore)
    requires UpsertRequest(event, env, parameters).Success?
    ensures var request := UpsertRequest(event, env, parameters).value;
      && OpenSearchUrl(env).Success? && EnvOpenSearchIndex in env && InsertId(event).Success?
      && request.url == OpenSearchUrl(env).value + env[EnvOpenSearchIndex] + "/_doc/" + StrOf(InsertId(event).value)
      && EndsWith(request.url, "/_doc/" + StrOf(InsertId(event).value))
      && request.verify == CheckVerifySslCert(env)
      && OpenConnection(env, parameters).Success?
      && request.user == OpenConnection(env, parameters).value.user
      && request.password == OpenConnection(env, parameters).value.password
      && Success(request.password) == UserPassword(env, parameters)
      && request.data == JObj(event)
  {
  }

  /**
   * The target depends on the event only through its
   * Internal-Sender-Identifier: publishing a record again, or a changed
   * record of the same bag, writes the same document.
   */
  lemma UpsertSameDocument(e1: Event, e2: Event, env: Env, parameters: ParameterStore)
    requires UpsertRequest(e1, env, parameters).Success? && UpsertRequest(e2, env, parameters).Success?
    requires InsertId(e1) == InsertId(e2)
    ensures UpsertRequest(e1, env, parameters).value.url == UpsertRequest(e2, env, parameters).value.url
  {
  }

  /** A record lacking ayr_role and bag_s3_url, which validate_event rejects, is sent all the same. */
  lemma UpsertSkipsValidation(id: string, env: Env, parameters: ParameterStore)
    requires EnvOpenSearchHostUrl in env && EnvOpenSearchUser in env && EnvOpenSearchIndex in env
    requires EnvOpenSearchUserPassword in env
    ensures var event := [(KeyBagData, JObj([(BagInfoTxt, JObj([(KeyInternalSenderIdentifier, JStr(id))]))]))];
      && ValidateEvent(event) == Failure(OpenSearchError(KeyAyrRole))
      && UpsertRequest(event, env, parameters).Success?
  {
    var event := [(KeyBagData, JObj([(BagInfoTxt, JObj([(KeyInternalSenderIdentifier, JStr(id))]))]))];
    assert Keys(event) == [KeyBagData];
    assert KeyAyrRole != KeyBagData by {
      assert KeyAyrRole[0] != KeyBagData[0];
    }
  }

  /** The corrected handler sends only records that hold ayr_role, bag_s3_url and bag_data, and then the same request. */
  lemma ValidatedUpsertRequestValid(event: Event, env: Env, parameters: ParameterStore)
    ensures ValidatedUpsertRequest(event, env, parameters).Success? ==>
      && HasKey(event, KeyAyrRole) && HasKey(event, KeyBagS3Url) && HasKey(event, KeyBagData)
      && ValidatedUpsertRequest(event, env, parameters) == UpsertRequest(event, env, parameters)
    ensures ValidateEvent(event).Failure? ==> ValidatedUpsertRequest(event, env, parameters) == Failure(ValidateEvent(event).error)
  {
    assert EventKeys[0] == KeyAyrRole && EventKeys[1] == KeyBagS3Url && EventKeys[2] == KeyBagData;
  }
}
