# MySportsFeeds PHP client — request resolution, modelled in Dafny

This project models the request pipeline of the MySportsFeeds PHP client:

- the feed tables of API versions 1.0, 2.0 and 2.1;
- how `BaseApi::getData` gates a request on credentials, feed name and format;
- how it turns `"key=value"` tokens into an ordered parameter array and adds the default `force` parameter;
- how `__determineUrl` builds the URL from the season segment, the path pieces, the endpoint, the format and the query string;
- how `__makeOutputFilename` names the cache file;
- how the HTTP status is dispatched: 200 stores and decodes, 304 reads the cache file back, anything else fails;
- the `MySportsFeeds` facade: its storage check and the calls it forwards.

PHP values are modelled as follows:

- **Arrays.** An associative array is an ordered `seq<(string, string)>`. Assigning an existing key overwrites it in place, so that key keeps its first position.
- **Feed tables.** A table is an ordered sequence of `(name, settings)`. Lookup returns the last entry with the name, as a PHP array literal with a repeated key would.
- **Strings.** Strings are `seq<char>`. `explode` and `trim` (with PHP's default character set) are written out.
- **Path specs.** The `preg_match` pattern `/([a-z_]+)\/([a-z_]+)$/` is modelled by its leftmost-match semantics. This includes PCRE's `$` matching before a final newline.
- **Errors.** Every `ErrorException` is a value of `ApiErrors.Error`.
- **Outside inputs.** The HTTP exchange is an input `Response(status, body)`. The file system is a `map<string, string>` from path to contents. `getData` returns an `Outcome` holding the new instance state, the new file store, the URL requested and the result.

Modules:

| file | module |
|---|---|
| wrappers.dfy | `Wrappers`: `Option` and `Result` |
| php_strings.dfy | `PhpStrings`: `substr_count`, `explode`, `implode`, `trim`, prefixes and suffixes |
| params.dfy | `Params`: the ordered PHP array: read, assign, `unset` |
| feeds.dfy | `Feeds`: feed settings, registry lookup, the path-spec pattern |
| feeds_v1_0.dfy, feeds_v2_0.dfy, feeds_v2_1.dfy | the three feed tables and their shape |
| url_resolver.dfy | `ApiErrors`, and `UrlResolver`: `getBaseUrlForVersion` and `__determineUrl` |
| cache_file.dfy | `CacheFile`: `__makeOutputFilename` |
| base_api.dfy | `BaseApi`: instance state, token parsing, the `force` default, `getData` |
| my_sportsfeeds.dfy | `MySportsFeeds`: the facade |
| requests.dfy | `Requests`: facts about every request the shipped tables allow |

## Model

| member | source | states |
|---|---|---|
| FeedsV1_0.Distinct | src/API_v1_0.php:12-32 | The version 1.0 table has 19 feeds and no name appears twice. |
| FeedsV1_0.Shape | src/API_v1_0.php:12-32 | No version 1.0 feed has path parameters. Every endpoint equals its feed name. Only `current_season` does without a season. |
| FeedsV1_0.LookupShape | src/API_v1_0.php:12-32 | Whatever a version 1.0 lookup finds has no path parameters, the feed name as endpoint, and needs a season unless it is `current_season`. |
| FeedsV2_0.Distinct | src/API_v2_0.php:12-128 | The version 2.0 table has 23 feeds with distinct names. |
| FeedsV2_0.SeasonOptional | src/API_v2_0.php:88-122 | Exactly `current_season`, `player_injuries` and `players` do without a season. |
| FeedsV2_0.OnlyStandardSpecs | src/API_v2_0.php:12-128 | Each feed has at most one path parameter, and it is `date/date`, `week/week` or `games/game`. |
| FeedsV2_0.PathParmsFollowNames | src/API_v2_0.php:12-128 | Each `daily_` feed takes `date/date`, each `weekly_` feed `week/week` and each `game_` feed `games/game`. No other feed takes a path parameter. |
| FeedsV2_0.ScoreboardUnknown | src/API_v2_0.php:12-128 | The version 1.x name `scoreboard` is not a version 2.0 feed. |
| FeedsV2_0.RenamedEndpoints | src/API_v2_0.php:93-107 | `seasonal_team_stats` reaches `team_stats_totals` and `player_injuries` reaches `injuries`. |
| FeedsV2_1.Distinct | src/API_v2_1.php:15-187 | The version 2.1 table has 33 feeds with distinct names. |
| FeedsV2_1.SeasonOptional | src/API_v2_1.php:32-123 | Exactly `current_season`, `player_injuries`, `players` and `injury_history` do without a season. |
| FeedsV2_1.OnlyStandardSpecs | src/API_v2_1.php:15-187 | Each feed has at most one path parameter, and it is one of the three shipped specs. |
| FeedsV2_1.PathParmsFollowNames | src/API_v2_1.php:15-187 | `daily_`, `weekly_` and `game_` feeds take the spec their prefix announces. `seasonal_` feeds take none, except `seasonal_player_stats_projections`, which takes a week. |
| FeedsV2_1.ExtendsV2_0 | src/API_v2_1.php:15-187 | Every version 2.0 feed is in version 2.1 with identical settings. |
| FeedsV2_1.VariantsShareEndpoints | src/API_v2_1.php:17-186 | Looking up any of the daily, weekly and seasonal variants of games, player gamelogs, team gamelogs, odds game lines or DFS finds one shared endpoint per family. |
| Feeds.Lookup | src/BaseApi.php:103 | Lookup finds a feed exactly when the name is registered, returns one of its entries, and returns the entry itself when names are distinct. |
| Feeds.VerifyFeedName | src/BaseApi.php:71-73 | A feed name is accepted exactly when it is a key of the table. |
| Feeds.MatchPathSpec | src/BaseApi.php:124-129 | A spec matches exactly when some position starts `word/word` over `[a-z_]` running to its end, or to just before one final newline. The two groups are such words, together they form that tail, and no match starts further left. |
| Feeds.MatchPlainSpec | src/BaseApi.php:124-129 | A spec written `name/parm` with both parts over `[a-z_]` yields exactly `(name, parm)`. |
| Feeds.StandardSpecsParse | src/BaseApi.php:124-129 | The three shipped specs yield `(date, date)`, `(week, week)` and `(games, game)`. |
| UrlResolver.BaseUrlForVersion | src/BaseApi.php:65-68 | The base URL is the host prefix, the version verbatim, then `/pull`. |
| UrlResolver.BaseUrlInjective | src/BaseApi.php:65-68 | Distinct versions give distinct base URLs. |
| UrlResolver.SeasonSegment | src/BaseApi.php:108-114 | A season is refused only when the feed needs one and it is empty. Otherwise the segment is `season/`, or empty when no season is needed. |
| UrlResolver.PathSegmentsSucceeds | src/BaseApi.php:122-141 | The pieces loop succeeds exactly when every spec matches, every key it names holds a non-empty value, and no two specs name the same key. |
| UrlResolver.PathSegmentsValue | src/BaseApi.php:122-142 | On success the path is the pieces `name/value/` in declared order. The remaining parameters are the input without the consumed keys, in their original order. |
| UrlResolver.PathSegmentsError | src/BaseApi.php:124-132 | A failing loop names a spec that did not match, or the key of a spec whose value is missing or empty. |
| UrlResolver.PiecesFrame | src/BaseApi.php:130-140 | Removing a key no remaining spec names changes neither the pieces nor whether the values are present. |
| UrlResolver.Options | src/BaseApi.php:151-159 | The query is empty exactly when no parameter is left. Otherwise it starts with `?`. |
| UrlResolver.OptionsRoundTrip | src/BaseApi.php:151-159 | For keys and values free of `&` and `=`, splitting the query on `&` and `=` gives back the parameters in order. |
| UrlResolver.PathSegments | src/BaseApi.php:122-142 | The pieces loop fails only for a spec the pattern does not match or a key whose value is missing or empty. |
| UrlResolver.DetermineUrl | src/BaseApi.php:91-163 | `__determineUrl` fails only for an unknown feed, a missing season, a malformed spec or a missing path value. |
| UrlResolver.UnknownFeedFirst | src/BaseApi.php:91-94 | `__determineUrl` answers `UnknownFeed` exactly when the feed is not registered. |
| UrlResolver.SeasonBeforePathParms | src/BaseApi.php:105-114 | A known feed that needs a season is refused for an empty season, whatever the path parameters. |
| UrlResolver.ResolveUrl | src/BaseApi.php:91-163 | For a known feed, the URL resolves exactly when the season rule holds and the path parameters are supplied. The URL is then base, league, season segment, pieces, endpoint, format and the query of the unconsumed parameters. |
| UrlResolver.ConsumedKeysLeaveQuery | src/BaseApi.php:139-140 | A key consumed by a path piece does not reappear in the query. |
| CacheFile.KeySuffix | src/BaseApi.php:171-189 | A cache key adds `-value` exactly when it is present, even when its value is empty. |
| CacheFile.MakeOutputFilename | src/BaseApi.php:167-198 | The filename starts with `feed-league-season` and ends with `.format`. |
| CacheFile.FilenameLayout | src/BaseApi.php:169-191 | The filename is `feed-league-season`, then a `-value` suffix for each present key among `gameid`, `fordate`, `game`, `date` and `week`, in that order, then `.format`. |
| CacheFile.FilenameReadsOnlyCacheKeys | src/BaseApi.php:169-191 | Two parameter arrays that agree on `gameid`, `fordate`, `game`, `date` and `week` give the same filename. |
| CacheFile.FilenameIgnoresOtherKeys | src/BaseApi.php:169-191 | Setting any other key, `force` included, leaves the filename unchanged. |
| CacheFile.FilenameIgnoresOrder | src/BaseApi.php:169-191 | Arrays holding the same pairs in any order give the same filename. |
| CacheFile.PlainFilename | src/BaseApi.php:169-191 | With no cache key present, the filename is `feed-league-season.format`. |
| BaseApi.VerifyFormat | src/BaseApi.php:76-78 | A format is accepted exactly when it is `json`, `xml` or `csv`, and is read back under that name. |
| BaseApi.FormatNamesAccepted | src/BaseApi.php:76-78 | Every format is accepted under its own name. |
| BaseApi.Decode | src/BaseApi.php:204-210 | The decoded value records its input and format. csv passes the text through unchanged. |
| BaseApi.NewApi | src/BaseApi.php:50-63 | A new instance has the version's base URL, the given table and storage, no credentials, status 0 and an empty URL. |
| BaseApi.SetAuthCredentials | src/BaseApi.php:237-239 | The credentials are recorded and nothing else changes. |
| BaseApi.ParseToken | src/BaseApi.php:274-279 | A token is accepted exactly when it has one `=`. |
| BaseApi.ParseTokenOf | src/BaseApi.php:274-279 | `key=value` with no other `=` reads back as the trimmed key and value. |
| BaseApi.TokenPieces | src/BaseApi.php:274-279 | An accepted token is its key text, one `=`, and its value text, and parsing trims those two texts. |
| BaseApi.ReparseToken | src/BaseApi.php:274-280 | Writing a parsed pair back as `key=value` parses to the same pair. |
| BaseApi.ParseOnto | src/BaseApi.php:272-281 | Assigning tokens onto an array without repeated keys leaves none, and a failure is an `InvalidParameter`. |
| BaseApi.ParseOntoSnoc | src/BaseApi.php:272-281 | One more well-formed token assigns its trimmed key and value on top of what the earlier tokens gave. |
| BaseApi.ParseSucceeds | src/BaseApi.php:272-281 | Parsing the tokens succeeds exactly when every token has exactly one `=`. |
| BaseApi.ParseReportsFirstBad | src/BaseApi.php:273-277 | A failed parse names the first token without exactly one `=`, and all tokens before it are well formed. |
| BaseApi.ParseValues | src/BaseApi.php:272-281 | After parsing, each key holds the value of the last token that named it. Keys no token named are absent. |
| BaseApi.ParseKeys | src/BaseApi.php:272-281 | After parsing, the keys stand once each, in the order the tokens first name them: a later repeat overwrites in place. |
| BaseApi.ParseKvParams | src/BaseApi.php:272-281 | A parsed array has no repeated key, and a failure is an `InvalidParameter`. |
| BaseApi.NoEqualsRefused | src/BaseApi.php:274-277 | `ab` is refused. |
| BaseApi.TwoEqualsRefused | src/BaseApi.php:274-277 | `a=b=c` is refused. |
| BaseApi.EmptyKeyAccepted | src/BaseApi.php:274-280 | `=b` is accepted with key `""` and value `b`. |
| BaseApi.WithDefaultForce | src/BaseApi.php:285-291 | The result always has `force`. A caller's `force` is kept as given. Otherwise `force` is appended last, `false` under file storage and `true` without it. |
| BaseApi.DefaultForceKeepsOthers | src/BaseApi.php:285-291 | Adding the default `force` changes no other key. |
| BaseApi.Dispatch | src/BaseApi.php:323-349 | Dispatch fails exactly when the status is neither 200 nor 304, and the error names the status. A 200 yields the body decoded in the format; a 304 yields the stored file decoded, or the decoded read failure when there is no file. The store changes only on a 200 under file storage, at the request's path. |
| BaseApi.Prepare | src/BaseApi.php:259-294 | The request is refused as unauthenticated exactly when no credentials are set. Once credentials, feed and format pass, a malformed token fails with the parser's `InvalidParameter` for the first bad token, and otherwise a URL that does not resolve fails with `__determineUrl`'s error. A prepared request has the requested format and carries `force`. |
| BaseApi.GetData | src/BaseApi.php:257-352 | A call that sends nothing changes nothing and fails. A call changes at most `url` and `httpCode`. It fails as unauthenticated exactly when no credentials are set. |
| BaseApi.GatingOrder | src/BaseApi.php:259-294 | Credentials are checked first, then the feed name, then the format. Each refusal happens before anything is sent or stored. After them comes the first malformed token, then the error `__determineUrl` raises. |
| BaseApi.RequestMadeIff | src/BaseApi.php:259-302 | A request is sent exactly when all checks pass, the tokens parse and the URL resolves. The URL is the one built from the parsed tokens plus the default `force`, and it is recorded with the status. |
| BaseApi.AfterRequest | src/BaseApi.php:294-349 | After a request, `httpCode` is the status. The result fails exactly on a status other than 200 and 304. A 200 returns the body decoded in the requested format; a 304 returns the file at `storeLocation` plus the filename, decoded the same way. Under file storage a 200 writes the body to that file; otherwise the store is unchanged. |
| BaseApi.RefreshRoundTrip | src/BaseApi.php:323-346 | Under file storage, a 200 followed by a 304 for the same request gives the same URL and the same decoded data. |
| BaseApi.PrepareIgnoresLastRequest | src/BaseApi.php:259-294 | The URL and status of an earlier request have no effect on the next one. |
| BaseApi.NotModified | src/BaseApi.php:329-346 | A 304 ignores the body sent and succeeds with data read from the stored file, in the requested format. In csv that is the stored text, or PHP's `false` when the file is missing. |
| MySportsFeeds.VerifyStore | src/MySportsFeeds.php:28-38 | A storage type other than null and `file` is reported as unrecognized, with a fixed message that does not name the type. File storage without a location is reported as such. |
| MySportsFeeds.VerifyStoreAccepts | src/MySportsFeeds.php:28-38 | The storage check accepts exactly no storage (any location) and file storage with a location. |
| MySportsFeeds.DefaultsAccepted | src/MySportsFeeds.php:15-18 | The constructor's defaults, `file` and `results/`, pass the storage check. |
| MySportsFeeds.NewClient | src/MySportsFeeds.php:15-25 | Construction succeeds exactly when the storage check does. The new instance has the version's base URL, no credentials, status 0 and an empty URL. |
| MySportsFeeds.NewClientAccessors | src/MySportsFeeds.php:41-54 | A new client's `getFeedsList`, `getHTTPCode` and `getURL` report its table, 0 and the empty URL. |
| MySportsFeeds.DefaultClient | src/MySportsFeeds.php:15-25 | A client built with the defaults is accepted, talks to `https://api.mysportsfeeds.com/v1.2/pull`, and stores files under `results/`. |
| MySportsFeeds.Authenticate | src/MySportsFeeds.php:56-62 | Authenticating records the credentials on the instance and changes nothing else. |
| MySportsFeeds.ClientGetData | src/MySportsFeeds.php:65-68 | The facade returns the instance's result and file store unchanged. It keeps its own settings, the instance changes at most in `url` and `httpCode`, only an unauthenticated instance is refused as such, and the store is written only on a 200 under file storage. |
| MySportsFeeds.AuthenticatedStaysAuthenticated | src/MySportsFeeds.php:56-68 | After authenticating, no request is refused for lack of credentials, and the credentials survive the request. |
| MySportsFeeds.AccessorsAfterRequest | src/MySportsFeeds.php:41-68 | After a request is sent, `getURL` gives its URL and `getHTTPCode` its status. Otherwise both are as before. The feed list never changes. |
| Requests.StandardSpecsKeepForce | src/BaseApi.php:124-140 | A table using only the shipped specs never consumes `force` in a path piece. |
| Requests.ForceReachesQuery | src/BaseApi.php:130-159 | When `force` is present and no spec consumes it, every resolved URL contains `?`. |
| Requests.RequestCarriesQuery | src/BaseApi.php:285-294 | Under a table of shipped specs, every URL `getData` requests has a query string. |
| Requests.ShippedTablesStandard | src/API_v2_1.php:15-187 | All three shipped tables use only the shipped specs. |
| Requests.NoPathParmsUrl | src/BaseApi.php:91-163 | For a feed without path parameters, every parameter goes to the query. |
| Requests.V1_0Url | src/API_v1_0.php:12-32 | A version 1.0 URL is base, league, season (except for `current_season`), feed name and format. All parameters, `game` and `date` included, go to the query. |

## Left out

- The HTTP exchange (curl, gzip, TLS options, the `Authorization: Basic` header) is out of scope. The server's answer is an input `Response`.
- `json_decode` and `simplexml_load_string` are left as library calls. A decoded value is kept as a term over the raw text and its format.
- `mkdir` of the store directory is not modelled. Neither is a failed `file_put_contents`, which the source only reports in verbose mode. A write always succeeds in the model.
- Verbose printing and the `verboseEOL` choice are out of scope. They do not affect control flow.
- `ApiFactory::create` and the version 1.2 class are not part of this model. The client takes the version's feed table as a parameter.
- MySportsFeeds.NewClient: assumes `ApiFactory::create` hands the version, `storeType` and `storeLocation` to the instance unchanged, since that code is not part of this model. `MySportsFeeds.DefaultClient`'s base URL and store prefix rest on the same assumption.
- The `storeOutput` field is not a separate field. Its value is the result `getData` returns.
- PHP loose comparison is not modelled for non-string `storeType`, `season` or parameter values. Every value is a string, and null is `None`.
- PHP turns numeric-string array keys such as `"1"` into integers. This is not modelled; keys are strings.
- `__determineUrl`'s loop works for any spec reader. The results are stated for the pattern model `MatchPathSpec`, which is the only reader passed in.
- `authenticate`'s error branch for an instance without basic authentication is not modelled. Every instance supports basic authentication, so the branch is unreachable.

Points where the code's behaviour is easy to misread:

- The URL is recorded only when `__determineUrl` succeeds, because the assignment is skipped when it throws.
- The feed name is checked before the format. An unsupported format on an unknown feed fails as `UnknownFeed`.
- Path-spec syntax is checked when a request is made, not when a table is built. All three shipped tables pass the check (`Requests.ShippedTablesStandard`, `Feeds.StandardSpecsParse`).
- A 304 whose cache file is missing does not raise a distinct error. The decoder receives PHP's `false` (`ReadFailure`).
- The filename suffix order is `gameid`, `fordate`, `game`, `date`, `week`, as the code appends them.
