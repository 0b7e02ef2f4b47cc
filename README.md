# Schiff service layer — a Dafny model

This project models the service layer of the "Schiff" (ship) store. A ship
(`Schiff`) has a name, a length (`laenge`), one officer (`Offizier`), a list of
cargo boxes (`Kiste`), a store-assigned id and a `version` counter. The layer
consists of:

- the write service (`SchiffWriteService`): `create`, `update` and `delete`.
  An update uses optimistic versioning. The caller names the version it last
  saw as a token such as `"3"`. The token must match `VERSION_PATTERN`
  (`^"\d{1,3}"`, anchored only at the start). A token older than the stored
  version is refused. Otherwise the stored version goes up by exactly one.
- the read service (`SchiffService`): `findById`, `count`, and a paged search.
  The search rejects unknown parameter names with `NotFound`, builds a filter,
  skips `number * size` matches and takes `size`. An empty window is
  `NotFound`. The total it reports is `count()`, the size of the whole store.
- the predicate builder (`WhereBuilder.build`): `name` becomes a
  case-insensitive substring condition. `laenge` becomes `laenge >= parseInt(v)`
  when `parseInt` yields a number. Otherwise `laenge` is silently dropped.
- the transport-side decisions that use the version token:
  - the conditional GET (304 when `If-None-Match` equals `"<version>"`),
  - the 428 answer to a PUT without `If-Match`,
  - the ETag `"<new version>"` after a PUT,
  - the GraphQL update mutation, which builds the token from a number,
  - the DTO mappings, which fix `version: 0`.

The store stands in for the Prisma client. It is a sequence of records in
store order with unique ids, plus the next id to hand out, so ids are never
reused. `findUnique`, `findMany(where, skip, take)`, `count`, `create`,
`update` and `delete` are functions over that sequence. The write service
(`SchiffWriteService.WriteService`) is a class that owns the store and the
outbox of sent mails. Its methods update these fields in place. The read
service, the predicate builder and the controllers' decisions are functions
over a snapshot of the store. The loops of the source are methods, each
proved equal to the function it implements:

- `#checkKeys`: `SchiffService.CheckKeys`,
- the `forEach` in `build`: `WhereBuilder.Build`,
- the key deletions in `get`: `SchiffController.NormalizeQuery`.

`Number.parseInt` is modelled as ECMAScript defines it (`Text.ParseInt`):

- leading white space and line terminators are skipped,
- an optional sign is read,
- with no radix, a `0x`/`0X` prefix switches to base 16 (`build` calls
  `parseInt` without a radix; `#validateUpdate` passes 10),
- the longest run of digits is read; no digits gives NaN, modelled as `None`.

The main cross-component result is `SchiffWriteService.QuotedVersionToken`
with `ValidateQuotedVersion`. A version written as `"n"` (the ETag of a GET,
or the token of the GraphQL mutation) passes `VERSION_PATTERN` exactly when
`n <= 999`. It then parses back to `n`. So the ETag of a record with a version
of 1000 or more can never be used to update it: such updates fail with
`VersionInvalid`.

## Model

| member | source | states |
|---|---|---|
| `Text.TrimStart` | src/schiff/service/where-builder.ts:45 | `parseInt` skips a prefix made only of white space and line terminators, and reads on from a suffix that is empty or does not start with one |
| `Text.ParseInt` | src/schiff/service/where-builder.ts:45 | white space only gives NaN; a number needs a digit or a sign after the white space; only a leading `-` gives a negative result; with radix 10, a leading digit always gives a number of at least 0 |
| `Text.DigitRun` | src/schiff/service/where-builder.ts:45 | the digits `parseInt` reads are the longest run of digits of the base at the start |
| `Text.ValueOfDecimalString` | src/schiff/controller/schiff-controller.ts:111 | the digits written for a version denote that version |
| `Text.ParseLeadingDigits` | src/schiff/service/schiff-write-service.ts:163 | `parseInt(s, 10)` of decimal digits followed by nothing or by a non-digit is the value of those digits |
| `Text.ParseDecimalString` | src/schiff/resolver/mutation.ts:78 | the decimal text of any `n >= 0` parses back to `n` |
| `Text.DecimalStringLength` | src/schiff/resolver/mutation.ts:78 | the decimal text of `n` has at most `k` digits exactly when `n < 10^k` |
| `Text.DecimalString` | src/schiff/controller/schiff-controller.ts:106 | a number's text is a non-empty string of decimal digits with no leading zero; it has one digit exactly when `n < 10` |
| `Text.Quoted` | src/schiff/controller/schiff-controller.ts:105-111 | the ETag / token template `"${n}"` is a quote, at least one decimal digit, and a quote |
| `Text.QuotedInjective` | src/schiff/controller/schiff-controller.ts:105-111 | two quoted versions are equal text exactly when the versions are equal, so the `If-None-Match` comparison is a comparison of versions |
| `Text.ContainsIgnoringCaseOfLowered` | src/schiff/service/where-builder.ts:38-43 | lower-casing the search text before the match gives the same matches |
| `Text.CaseIsIgnored` | src/schiff/service/where-builder.ts:38-43 | the name condition ignores case: upper-casing the stored name or the search text, or lower-casing the stored name, does not change a match |
| `Text.MixedCaseMatches` | src/schiff/service/where-builder.ts:38-43 | the search text `rUS` matches the name `Rusalka` |
| `Text.EmptyTextMatchesEverything` | src/schiff/service/where-builder.ts:38-43 | an empty `name` value matches every name |
| `Schiffe.LastValue` | src/schiff/service/where-builder.ts:36-52 | a parameter object holds a value for a key exactly when some entry has that key, and the value is one of the entries' |
| `Schiffe.FindUnique` | src/schiff/service/schiff-service.ts:48-51 | `findUnique` yields a record exactly when one has the id, and that record carries the id |
| `Schiffe.FindUniqueFindsTheRecord` | src/schiff/service/schiff-service.ts:48-51 | with unique ids, the lookup finds exactly the record stored under the id |
| `Schiffe.Remove` | src/schiff/service/schiff-write-service.ts:139-141 | `delete` keeps exactly the records with another id, leaves no record with the id, and keeps ids unique |
| `Schiffe.RemovePresent` | src/schiff/service/schiff-write-service.ts:139-144 | removing a stored id takes away exactly one record |
| `Schiffe.RemoveKeepsStoreValid` | src/schiff/service/schiff-write-service.ts:139-141 | deleting keeps ids unique, positive and below the next id |
| `Schiffe.LookupAfterReplace` | src/schiff/service/schiff-write-service.ts:108-113 | after `update`, looking up the written id finds the new record, and looking up any other id finds what it found before |
| `Schiffe.ReplaceKeepsStoreValid` | src/schiff/service/schiff-write-service.ts:108-113 | an update keeps the store consistent and its set of ids unchanged |
| `Schiffe.InsertKeepsStoreValid` | src/schiff/service/schiff-write-service.ts:68-73 | a record created under the next id has an id no stored record has, and the store stays consistent |
| `Schiffe.NewSchiff` | src/schiff/service/schiff-write-service.ts:68-73 | the created record carries the id the store assigns and exactly the columns, officer and boxes of the create input |
| `Schiffe.ApplyUpdate` | src/schiff/service/schiff-write-service.ts:106-113 | an update never changes id, officer or boxes; a given name or length is written, a missing one kept; the version is kept, set, or incremented by the given step |
| `WhereBuilder.Matches` | src/schiff/service/where-builder.ts:38-48 | a filter with no length bound and no or an empty name text keeps every record |
| `WhereBuilder.Build` | src/schiff/service/where-builder.ts:31-55 | the loop over the entries builds exactly the fold `WhereOf` of the parameters, starting from the empty filter |
| `WhereBuilder.WhereOfName` | src/schiff/service/where-builder.ts:38-43 | the name condition is the value of the `name` parameter, if any |
| `WhereBuilder.WhereOfLaenge` | src/schiff/service/where-builder.ts:44-48 | the length bound is `parseInt(v)` for the `laenge` value `v` when it parses; otherwise there is no bound and no error |
| `WhereBuilder.WhereOfIgnoresOtherKeys` | src/schiff/service/where-builder.ts:36-52 | entries with keys other than `name` and `laenge` do not change the filter |
| `WhereBuilder.MatchesBuiltWhere` | src/schiff/service/where-builder.ts:34-52 | a record passes the built filter exactly when its name contains the `name` value ignoring case AND its length is at least the parsed `laenge` value |
| `WhereBuilder.EmptyWhereMatchesAll` | src/schiff/service/where-builder.ts:34 | the filter built from no parameters keeps every record |
| `SchiffService.FindById` | src/schiff/service/schiff-service.ts:45-61 | success exactly when a record has the id, and then a stored record with that id; otherwise `NotFound` |
| `SchiffService.FindByIdFindsTheRecord` | src/schiff/service/schiff-service.ts:45-61 | with unique ids, `findById` returns the very record stored under the id |
| `SchiffService.Count` | src/schiff/service/schiff-service.ts:115-120 | `count()` is the number of records an unfiltered `findMany` sees |
| `SchiffService.Matching` | src/schiff/service/schiff-service.ts:96-100 | the filtered records are exactly the stored records that match, at most as many as stored |
| `SchiffService.MatchingEmptyWhere` | src/schiff/service/schiff-service.ts:124-127 | with no filter, `findMany` sees the whole store in store order |
| `SchiffService.Window` | src/schiff/service/schiff-service.ts:95-100 | skip/take returns the records ranked `skip` up to `skip + take - 1`, only records of the sequence, and nothing past the end |
| `SchiffService.CheckKeys` | src/schiff/service/schiff-service.ts:148-162 | the flag ends true exactly when every key is `name` or `laenge` |
| `SchiffService.CreateSlice` | src/schiff/service/schiff-service.ts:136-146 | the slice holds the given records and the given total as they are, without recounting |
| `SchiffService.FindAll` | src/schiff/service/schiff-service.ts:122-134 | success exactly when the page starts inside the store and `size > 0`; the content is the window of the store from `number*size` of length `size`; the total is the store size; else `NotFound` |
| `SchiffService.FindMatching` | src/schiff/service/schiff-service.ts:94-108 | with known keys: success exactly when `size > 0` and the page starts inside the matching records; the content is their window from `number*size`; the total is the store size; else `NotFound` |
| `SchiffService.Find` | src/schiff/service/schiff-service.ts:70-109 | an unknown key gives `NotFound`; otherwise the content is the window `[number*size, number*size+size)` of the matching records; an empty window gives `NotFound`; `totalElements` is the unfiltered `count()` |
| `SchiffService.FoundRecordsMatch` | src/schiff/service/schiff-service.ts:94-108 | every record a search returns is stored and matches the filter |
| `SchiffService.FindWithoutParameters` | src/schiff/service/schiff-service.ts:80-87 | absent or empty parameters behave exactly like `#findAll` |
| `SchiffWriteService.MatchesVersionPattern` | src/schiff/service/schiff-write-service.ts:40 | a matching token has at least three characters, starts with a quote and then a digit |
| `SchiffWriteService.VersionPatternIsRegex` | src/schiff/service/schiff-write-service.ts:40 | the scan accepts exactly the tokens `^"\d{1,3}"` matches, trailing text included |
| `SchiffWriteService.TokenVersion` | src/schiff/service/schiff-write-service.ts:163 | `parseInt(versionStr.slice(1, -1), 10)` is NaN for a token of two characters or fewer, and a number of at least 0 when a digit follows the first character |
| `SchiffWriteService.ParseVersionToken` | src/schiff/service/schiff-write-service.ts:163 | for a matching token, `parseInt(slice(1,-1), 10)` is the value of the digits between the quotes |
| `SchiffWriteService.QuotedVersionToken` | src/schiff/resolver/mutation.ts:78 | `"n"` matches the pattern exactly when `n <= 999`, and then parses back to `n` |
| `SchiffWriteService.ValidateUpdate` | src/schiff/service/schiff-write-service.ts:153-170 | the check passes only for a stored id |
| `SchiffWriteService.ValidateUpdateOutcome` | src/schiff/service/schiff-write-service.ts:153-170 | no match of the pattern: `VersionInvalid` before any lookup; unknown id: `NotFound`; digits below the stored version: `VersionOutdated`; equal or greater: passes |
| `SchiffWriteService.ValidateQuotedVersion` | src/schiff/service/schiff-write-service.ts:159-169 | the check of the token `"n"`: invalid above 999, else `NotFound` / outdated / pass by the stored version |
| `SchiffWriteService.SameTokenIsOutdatedAfterUpdate` | src/schiff/service/schiff-write-service.ts:104-119 | after a successful update with the stored version's token, the same token is outdated |
| `SchiffWriteService.CreationMail` | src/schiff/service/schiff-write-service.ts:147-151 | the body of the creation mail contains the `name` it is given; `create` passes the officer's name, which the template calls the ship's title |
| `SchiffWriteService.CreationMailNamesTheShip` | src/schiff/service/schiff-write-service.ts:147-151 | the creation mail's subject is `Neues Schiff ` followed by the id, which reads back as the id |
| `SchiffWriteService.WriteService.constructor` | src/schiff/service/schiff-write-service.ts:51-59 | the service starts on a consistent store with an empty outbox |
| `SchiffWriteService.WriteService.Create` | src/schiff/service/schiff-write-service.ts:66-81 | appends one record under a fresh id that was never in the store, returns that id, finds it afterwards, and sends exactly one mail |
| `SchiffWriteService.WriteService.SendMail` | src/schiff/service/schiff-write-service.ts:147-151 | one mail with the creation subject and body is added |
| `SchiffWriteService.WriteService.Update` | src/schiff/service/schiff-write-service.ts:90-120 | no id: `NotFound`; a failed check: its error and an unchanged store; success: the supplied fields are written, the version is the stored one plus one whatever the input said, no other record changes, and the new version is returned |
| `SchiffWriteService.WriteService.Delete` | src/schiff/service/schiff-write-service.ts:128-145 | true exactly when the id was stored, and then exactly that record is removed; false leaves the store unchanged; afterwards `findById` fails |
| `SchiffController.GetById` | src/schiff/controller/schiff-controller.ts:84-115 | 406 without touching the store; 404 for an unknown id; 304 exactly when `If-None-Match` equals the quoted stored version; otherwise exactly the stored record with ETag `"<version>"`; the status code is 406, 404, 304 or 200 accordingly |
| `SchiffController.ETagRevalidates` | src/schiff/controller/schiff-controller.ts:104-111 | the returned ETag sent back gives 304; the same tag with a `W/` prefix does not, since tags are compared as plain strings |
| `SchiffController.SearchParams` | src/schiff/controller/schiff-controller.ts:152-166 | no `page` or `size` key survives; every defined entry with another key survives; nothing undefined survives |
| `SchiffController.NormalizeQuery` | src/schiff/controller/schiff-controller.ts:152-166 | the deletions leave exactly `SearchParams` of the query |
| `SchiffController.PagingOnlyQueryHasNoParameters` | src/schiff/controller/schiff-controller.ts:152-166 | a query with only paging keys and undefined values searches with no parameters |
| `SchiffController.Get` | src/schiff/controller/schiff-controller.ts:133-175 | 406 first; with `only` set, the count of all records and no search; otherwise exactly the slice the search returns with the pageable built from `page` and `size` (stored, matching records, at most `size`, the unfiltered total), or 404 exactly when the search fails |
| `SchiffWriteController.SchiffDtoToSchiffCreateInput` | src/schiff/controller/schiff-write-controller.ts:137-159 | version 0; name, length and officer copied; each box copied; no boxes when the body has none |
| `SchiffWriteController.SchiffDtoToSchiffUpdate` | src/schiff/controller/schiff-write-controller.ts:161-167 | applied as it is, the update input resets the version to 0, writes name and length and nothing else |
| `SchiffWriteController.UpdateInputVersionIsReplaced` | src/schiff/controller/schiff-write-controller.ts:161-167 | the update input alone would set version 0; after the service's increment the version is the stored one plus one, with name and length written |
| `SchiffWriteController.Post` | src/schiff/controller/schiff-write-controller.ts:63-76 | the ship is stored under the next id with version 0, the next id goes up by one, one creation mail is sent, and the location is the base URI, `/` and that id |
| `SchiffWriteController.Put` | src/schiff/controller/schiff-write-controller.ts:91-121 | no `If-Match`: 428 with the service untouched; a failed check: that error and an unchanged store; otherwise ETag `"<stored+1>"` and the store with exactly that record rewritten: name and length from the body, the version incremented; no id is handed out and no mail is sent |
| `SchiffWriteController.Delete` | src/schiff/controller/schiff-write-controller.ts:129-135 | always 204; the record is removed if it was there, nothing else changes; no id is handed out and no mail is sent |
| `Mutation.SchiffDtoToSchiffCreate` | src/schiff/resolver/mutation.ts:100-122 | the same create input as the REST controller builds, at version 0 |
| `Mutation.SchiffUpdateDtoToSchiffUpdate` | src/schiff/resolver/mutation.ts:124-129 | applied as it is, the update input writes name and length and leaves the version and everything else as stored |
| `Mutation.UpdateInputLeavesVersionToService` | src/schiff/resolver/mutation.ts:124-129 | the mutation's update input does not touch the version; only the service's increment does |
| `Mutation.Create` | src/schiff/resolver/mutation.ts:60-70 | the payload is the new id, the ship is stored under it, the next id goes up by one, and one creation mail is sent |
| `Mutation.Update` | src/schiff/resolver/mutation.ts:72-88 | the service's check of the token `"n"` for the id `parseInt(id, 10)` decides: its error with the store unchanged, or the payload stored version plus one and the store with exactly that record rewritten (name and length, version plus one); no id is handed out and no mail is sent (`ValidateQuotedVersion` gives that check for every `n`) |
| `Mutation.Delete` | src/schiff/resolver/mutation.ts:90-98 | the payload is `{success: true}` whether or not the record existed; the record is removed if it was there, nothing else changes |

## Left out

- Schiffe.Remove and Schiffe.Replace are total: a missing id leaves the store unchanged. Prisma's `delete` and `update` throw for a missing id instead. The services look the id up first, so a missing id can reach them only through the race below.
- SchiffWriteService.WriteService.Update writes `{ increment: 1 }` into the caller's `schiff` object (src/schiff/service/schiff-write-service.ts:106). The model builds a new input value instead, so the caller's object is not changed.
- The race between `#validateUpdate` and the write, and `$transaction` atomicity: operations are modelled as sequential steps on one store.
- The store's order for `findMany` without `orderBy`: the model uses one fixed order, the store sequence, for every query. The database promises no order here, so two queries may see different orders.
- Prisma and the database engine, the timestamps they manage, and the cascade to officer and boxes. A deleted ship takes its officer and boxes with it because they are fields of the record.
- Mail delivery and its failure, and the logger. The mail is modelled as an entry appended to the outbox. The `'N/A'` fallbacks of `create` apply only when the transaction yields nothing, which cannot happen in the sequential model.
- `createPageable`, `createPage` and `createBaseUri` are not part of this model. `SchiffController.Get` takes `createPageable` as a parameter and returns the slice with the pageable. `SchiffWriteController.Post` takes the base URI as a parameter.
- Content negotiation (`req.accepts`) is a boolean input.
- Path ids arrive as integers. `put` converts its id with `ParseIntPipe`; that conversion is not modelled. The REST `delete` (src/schiff/controller/schiff-write-controller.ts:132) declares `id: number` with no pipe, so at run time it receives the path segment as a string; the model assumes it has been converted to a number.
- HTTP status codes for `VersionInvalid` and `VersionOutdated` come from an exception filter that is not part of this model. `Put` returns the service error itself.
- DTO validation and transformation decorators, including `toNumber` rounding with `toFixed(2)`: DTO values arrive already validated. Lengths and box sizes are exact reals.
- Query values that are arrays (repeated keys) or non-strings, and GraphQL search arguments: search values are strings.
- JavaScript number limits: ids and versions are unbounded integers, so the loss of precision past 2^53 in `parseInt` and the 32-bit database columns are not modelled.
- Text.ContainsIgnoringCase: folds ASCII letters only, and treats the value as a literal substring. The database's locale-aware case-insensitive match and its handling of `%` and `_` are not modelled.
- Mutation.Update: requires `parseInt(id, 10)` to yield a number. A NaN id, e.g. `.5`, which the number-string validator accepts, would reach the store with unmodelled behaviour.
- Mutation.Delete: takes the id after `Number(...)` conversion; JavaScript's `Number` string conversion is not modelled.
- The resolver's query side and its `lieferbar` cast, NestJS module wiring, the load-test script and the controller exception class.
