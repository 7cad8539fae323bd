/** `MySportsFeeds`: the facade a program constructs. It checks the storage
    configuration and forwards everything else to the API instance for the
    chosen version. Which instance `ApiFactory::create` builds for a version
    string is not part of this model: the caller supplies that version's feed
    table. */
module MySportsFeeds {
  import opened Wrappers
  import opened Feeds
  import opened ApiErrors
  import opened BaseApi

  /** The constructor's defaults. */
  const DefaultApiVersion := "1.2"
  const DefaultStoreType: Option<string> := Some("file")
  const DefaultStoreLocation: Option<string> := Some("results/")

  datatype Client = Client(
    apiVersion: string,
    storeType: Option<string>,
    storeLocation: Option<string>,
    instance: Api)

  /** `__verifyStore`: the storage type is null or `"file"`, and `"file"`
      needs a location. */
  function VerifyStore(storeType: Option<string>, storeLocation: Option<string>): (r: Result<(), Error>)
    ensures r.Failure? && storeType.Some? && storeType.value != "file" ==>
      r.error == UnrecognizedStoreType
    ensures r.Failure? && storeType == Some("file") ==> r.error == MissingStoreLocation
  {
    if storeType.Some? && storeType.value != "file" then Failure(UnrecognizedStoreType)
    else if storeType == Some("file") && storeLocation.None? then Failure(MissingStoreLocation)
    else Success(())
  }

  /** The accepted configurations are exactly: no storage, whatever the
      location, and file storage with a location. */
  lemma VerifyStoreAccepts(storeType: Option<string>, storeLocation: Option<string>)
    ensures VerifyStore(storeType, storeLocation).Success?
        <==> storeType.None? || (storeType == Some("file") && storeLocation.Some?)
  {
  }

  /** The defaults pass the check. */
  lemma DefaultsAccepted()
    ensures VerifyStore(DefaultStoreType, DefaultStoreLocation).Success?
  {
  }

  /** The constructor: the storage check, then the API instance for
      `apiVersion` with `feeds` as its table. */
  function NewClient(apiVersion: string, feeds: Registry, storeType: Option<string>,
                     storeLocation: Option<string>): (r: Result<Client, Error>)
    ensures r.Success? <==> VerifyStore(storeType, storeLocation).Success?
    ensures r.Failure? ==> r.error == VerifyStore(storeType, storeLocation).error
    ensures r.Success? ==>
      && r.value.instance.baseUrl == UrlResolver.BaseUrlForVersion(apiVersion)
      && r.value.instance.feeds == feeds
      && r.value.instance.storeType == storeType && r.value.instance.storeLocation == storeLocation
      && r.value.instance.auth.None? && r.value.instance.httpCode == 0 && r.value.instance.url == ""
  {
    var _ :- VerifyStore(storeType, storeLocation);
    Success(Client(apiVersion, storeType, storeLocation, NewApi(apiVersion, feeds, storeType, storeLocation)))
  }

  /** `supportsBasicAuth` of every instance in this model. */
  const SupportsBasicAuth := true

  /** `authenticate`: basic authentication is always supported, so the
      credentials are always handed to the instance. */
  function Authenticate(c: Client, apikey: string, password: string): (r: Client)
    ensures r.instance.auth == Some(Credentials(apikey, password))
    ensures r.(instance := c.instance) == c
    ensures r.instance.(auth := c.instance.auth) == c.instance
  {
    if SupportsBasicAuth then c.(instance := SetAuthCredentials(c.instance, apikey, password))
    else c
  }

  /** `getData`, forwarded to the instance, whose store and result it hands
      back unchanged: the facade's own settings stay,
      the instance changes at most in `url` and `httpCode`, only an
      unauthenticated instance is refused as such, and the store is written
      only for a 200 under file storage. */
  function ClientGetData(c: Client, files: Files, league: string, season: string, feed: string,
                         format: string, kvParams: seq<string>, response: Response)
    : (r: (Client, Files, Result<Data, Error>))
    ensures r.0.(instance := c.instance) == c
    ensures r.0.instance.(url := c.instance.url, httpCode := c.instance.httpCode) == c.instance
    ensures r.2 == Failure(NotAuthenticated) <==> c.instance.auth.None?
    ensures r.1 != files ==> c.instance.storeType == Some("file") && response.status == 200
    ensures var o := GetData(c.instance, files, league, season, feed, format, kvParams, response);
      r.1 == o.files && r.2 == o.result
  {
    var o := GetData(c.instance, files, league, season, feed, format, kvParams, response);
    AfterRequest(c.instance, files, league, season, feed, format, kvParams, response);
    (c.(instance := o.api), o.files, o.result)
  }

  /** `getFeedsList`, `getHTTPCode` and `getURL`, forwarded to the instance. */
  function GetFeedsList(c: Client): Registry
  {
    c.instance.feeds
  }

  function GetHTTPCode(c: Client): int
  {
    c.instance.httpCode
  }

  function GetURL(c: Client): string
  {
    c.instance.url
  }

  /** A new client reports its own feed table, status 0 and an empty URL. */
  lemma NewClientAccessors(apiVersion: string, feeds: Registry, storeType: Option<string>,
                           storeLocation: Option<string>)
    ensures var r := NewClient(apiVersion, feeds, storeType, storeLocation);
      r.Success? ==> GetFeedsList(r.value) == feeds && GetHTTPCode(r.value) == 0 && GetURL(r.value) == ""
  {
  }

  /** A client built with every default talks to version 1.2 and stores
      responses as files under `results/`. */
  lemma DefaultClient(feeds: Registry)
    ensures var r := NewClient(DefaultApiVersion, feeds, DefaultStoreType, DefaultStoreLocation);
      && r.Success?
      && r.value.instance.baseUrl == "https://api.mysportsfeeds.com/v1.2/pull"
      && StorePath(r.value.instance, "f") == "results/f"
  {
    assert UrlResolver.UrlHead + "1.2" + UrlResolver.UrlTail == "https://api.mysportsfeeds.com/v1.2/pull";
  }

  /** Once authenticated, a client's requests are never refused for want of
      credentials, and the credentials survive every request. */
  lemma AuthenticatedStaysAuthenticated(c: Client, apikey: string, password: string, files: Files,
                                        league: string, season: string, feed: string, format: string,
                                        kvParams: seq<string>, response: Response)
    ensures var a := Authenticate(c, apikey, password);
      var r := ClientGetData(a, files, league, season, feed, format, kvParams, response);
      && r.2 != Failure(NotAuthenticated)
      && r.0.instance.auth == Some(Credentials(apikey, password))
  {
  }

  /** After a request is made, `getURL` reports the URL requested and
      `getHTTPCode` the status the server answered with; the feed list never
      changes. */
  lemma AccessorsAfterRequest(c: Client, files: Files, league: string, season: string, feed: string,
                              format: string, kvParams: seq<string>, response: Response)
    ensures var o := GetData(c.instance, files, league, season, feed, format, kvParams, response);
      var r := ClientGetData(c, files, league, season, feed, format, kvParams, response);
      && GetFeedsList(r.0) == GetFeedsList(c)
      && (o.requested.Some? ==> GetURL(r.0) == o.requested.value && GetHTTPCode(r.0) == response.status)
      && (o.requested.None? ==> GetURL(r.0) == GetURL(c) && GetHTTPCode(r.0) == GetHTTPCode(c))
  {
    RequestMadeIff(c.instance, files, league, season, feed, format, kvParams, response);
  }
}
