# near-rss core, modelled in Dafny

near-rss is a self-hosted RSS reader. It has a Rust server that speaks a
subset of the Google Reader API, and a small JavaScript client. This project
models the parts of it that decide things:

- the subscription row and its comma-joined labels;
- the subscription table, keyed by user and subscription id;
- the subscription service:
  - conversions between stored rows, the wire form and fetched feeds;
  - turning feed entries into items;
  - the loop that loads every subscription's items;
- the Google Reader adapters:
  - the item-id codec `tag:google.com,2005:reader/item/<hex>`, with its `-1` sentinel;
  - the item categories;
  - stream filters and page options;
  - content ordering;
  - tag edits and subscription edits;
- the `sid.expire_at.id` session token;
- the page helpers;
- the user table and the login decision;
- the environment name;
- on the client:
  - the reader state;
  - reading the token from the cookie;
  - taking it out of the login response.

Modules, one per source file, plus shared helpers:

| module | file | models |
|---|---|---|
| `Wrappers`, `Text`, `Numbers`, `Sequences` | wrappers.dfy, text.dfy, numbers.dfy, sequences.dfy | helpers: `Option`/`Result`; Rust/JavaScript `split`, `join`, `trim`, `to_lowercase`, `starts_with`/`ends_with`/`strip_prefix`; `i64::from_str_radix` and `i64` `Display`; `Vec::dedup`, first-occurrence search |
| `Errors` | errors.dfy | the server's error kinds |
| `SubscriptionStore` | subscription_store.dfy | `src/database/subscriptions.rs` |
| `SubscriptionService` | subscription_service.dfy | `src/services/subscriptions.rs` |
| `GReaderItem`, `ReaderIds` | greader_item.dfy, reader_ids.dfy | `src/greader/item.rs`, `src/routes/reader/mod.rs` |
| `ReaderStream`, `ReaderEdit`, `ReaderSubscriptions` | reader_stream.dfy, reader_edit.dfy, reader_subscriptions.dfy | `src/routes/reader/{stream,edit,subscriptions}.rs` |
| `Common`, `Tokens` | common.dfy, token.dfy | `src/common/mod.rs`, `src/common/token.rs` |
| `Users`, `UserLogin` | users.dfy, user_service.dfy | `src/database/users.rs`, `src/user/mod.rs` |
| `Configuration` | configuration.dfy | `src/configuration.rs` |
| `ClientState`, `ClientConnector` | client_state.dfy, client_connector.dfy | `public/javascripts/state.js`, `public/javascripts/connector.js` |

Modelling choices:

- Label lists are updated step by step, so they are methods with loops. The
  tables the server keeps in SQLite are classes over a `map` (subscriptions)
  or a `seq` of rows in insertion order (users).
- The client's items are shared objects. Marking an item read changes that
  object in place, so `ClientItem` is a class.
- Route handlers decide which service call to make. They are functions that
  return that call as a datatype, because the called services are not
  defined in this code.
- Inputs that come from outside the model are parameters:
  - the clock, and the random ids and session ids;
  - the fetched feeds, as a map from url to result;
  - the item store's verdict on each insert;
  - the password hash, a deterministic function given when the user table is built.
- A panic in the source (an `unwrap`, or an index `[0]`) becomes a precondition.
- A JavaScript exception becomes `Err("TypeError")`, and `undefined` becomes `None`.

## Model

| member | source | states |
|---|---|---|
| SubscriptionStore.LabelsOf | src/database/subscriptions.rs:21-30 | an empty joined string has no labels; every label is non-empty and comma-free |
| SubscriptionStore.Categories | src/database/subscriptions.rs:21-30 | the non-empty pieces of the comma split, with the empty-string branch giving the same as the general one |
| SubscriptionStore.LabelsOfIsFilteredSplit | src/database/subscriptions.rs:21-30 | the labels are the comma-split pieces with the empty ones dropped, in order, including when the string is empty |
| SubscriptionStore.LabelsOfJoin | src/database/subscriptions.rs:21-30 | joining non-empty comma-free labels and reading them back gives the same list |
| SubscriptionStore.NonEmptyLabelsMembership | src/database/subscriptions.rs:27 | a label survives the filter exactly when it is non-empty and present |
| SubscriptionStore.AddCategories | src/database/subscriptions.rs:32-41 | the new joined string is the old pieces followed by the non-empty added labels, with adjacent duplicates removed, joined by commas; no other field changes |
| SubscriptionStore.PushNonEmpty | src/database/subscriptions.rs:34-38 | the loop appends exactly the non-empty labels to be added, in order, behind the existing pieces |
| SubscriptionStore.AddCategoriesLabels | src/database/subscriptions.rs:32-41 | with comma-free labels, the stored pieces have no equal neighbours, and a label is stored afterwards iff it was stored before or is a non-empty added label |
| SubscriptionStore.AddCategoriesDuplicates | src/database/subscriptions.rs:39 | with `a,b` stored, adding `a` stores `a,b,a`: `dedup` keeps separated duplicates |
| SubscriptionStore.AddCategoriesUnique | src/database/subscriptions.rs:32-41 | corrected version: the same label set as `add_categories`, each label stored once, other fields unchanged |
| SubscriptionStore.UniqueLabels | src/database/subscriptions.rs:32-41 | keeping only first occurrences gives a duplicate-free label list with the same members |
| SubscriptionStore.RemoveCategories | src/database/subscriptions.rs:43-49 | afterwards a label is stored iff it was stored before and is not being removed; no label is stored twice; other fields unchanged |
| SubscriptionStore.RemovedLabels | src/database/subscriptions.rs:43-49 | joining the labels left in the hash set reads back as the old labels minus the removed ones, without duplicates |
| SubscriptionStore.SubscriptionRepository.constructor | src/database/subscriptions.rs:74-79 | a new repository has an empty table |
| SubscriptionStore.SubscriptionRepository.InsertSubscription | src/database/subscriptions.rs:82-99 | a new key is added and can then be read back; an existing key is an error that leaves the table as it was |
| SubscriptionStore.SubscriptionRepository.UpdateSubscription | src/database/subscriptions.rs:101-130 | a missing row fails with `SubscriptionNotFound` and leaves the table unchanged; otherwise the row is replaced, the argument is returned and a later get returns it |
| SubscriptionStore.SubscriptionRepository.RemoveSubscription | src/database/subscriptions.rs:132-139 | the key is removed, whether or not it existed, and a later get returns nothing |
| SubscriptionStore.SubscriptionRepository.GetSubscription | src/database/subscriptions.rs:141-150 | a row is returned iff one exists for that user and id, and it is the stored row under that key |
| SubscriptionStore.SubscriptionRepository.GetSubscriptions | src/database/subscriptions.rs:152-173 | an empty id list is an error (the query is malformed); otherwise the keys are exactly the requested ids that exist for the user, each mapped to its row |
| SubscriptionStore.SubscriptionRepository.ListUserSubscriptions | src/database/subscriptions.rs:175-182 | exactly the user's rows, each once |
| SubscriptionStore.SubscriptionRepository.ListAllSubscriptions | src/database/subscriptions.rs:184-189 | exactly the rows of the table, each once |
| SubscriptionService.FromDb | src/services/subscriptions.rs:25-44 | the fields are copied; one category per stored label, in order, with id `user/<uid>/label/<label>` |
| SubscriptionService.ToDb | src/services/subscriptions.rs:47-63 | the row has the given user id, the subscription's fields and `last_fetch_ms` 0 |
| SubscriptionService.ToDbCategories | src/services/subscriptions.rs:55-60 | the stored labels of the row are the category labels, without the empty ones |
| SubscriptionService.ToDbFromDb | src/services/subscriptions.rs:25-63 | converting a row out and back keeps its labels, and changes only the joined string's form and `last_fetch_ms` |
| SubscriptionService.FromDbToDb | src/services/subscriptions.rs:25-63 | a subscription whose labels are non-empty and comma-free, with ids of the `user/<uid>/label/` form, survives storing and reading back |
| SubscriptionService.FromFeed | src/services/subscriptions.rs:65-78 | id `feed/<url>`, feed url kept, url is the first link or the feed url, missing title or description is empty, no categories |
| SubscriptionService.FromFeedId | src/services/subscriptions.rs:67 | stripping `feed/` from the id gives the url back, and the stored row has no labels |
| SubscriptionService.ExtractItemsFromFeed | src/services/subscriptions.rs:102-128 | one item per entry, in order: entry id, title and content defaulting to empty, authors joined by commas, first link, published time or the clock reading |
| SubscriptionService.ItemAuthors | src/services/subscriptions.rs:115-120 | an item's author field splits back into the entry's author names |
| SubscriptionService.BatchesOfFetched | src/services/subscriptions.rs:178-188 | no batch is inserted when no feed was fetched; one batch per subscription, extracted from its feed, when all were |
| SubscriptionService.UntilRefused | src/services/subscriptions.rs:182-184 | the batches attempted are a prefix of all batches; all are attempted iff all are accepted; otherwise the last attempted one was refused |
| SubscriptionService.LoadCallsUntilRefused | src/services/subscriptions.rs:178-189 | the insert calls the loop makes are the fetched subscriptions' batches, up to and including the first refused one |
| SubscriptionService.ItemSink.InsertItems | src/services/subscriptions.rs:182-184 | the batch is recorded, and the call succeeds iff the store accepts it |
| SubscriptionService.SubscriptionService.AddSubscription | src/services/subscriptions.rs:143-148 | the stored row is `to_db` of the subscription under a new key; an existing key is an error that changes nothing |
| SubscriptionService.SubscriptionService.AddSubscriptionFromUrl | src/services/subscriptions.rs:132-141 | a failed fetch is returned unchanged; otherwise the subscription built from the feed is stored and returned, unless its key exists |
| SubscriptionService.SubscriptionService.RemoveSubscription | src/services/subscriptions.rs:150-155 | the key is removed and the call succeeds |
| SubscriptionService.SubscriptionService.ListSubscriptions | src/services/subscriptions.rs:157-166 | one converted element per row of the user, each row once, in the order the table lists them |
| SubscriptionService.SubscriptionService.LoadSubscriptionItems | src/services/subscriptions.rs:168-190 | for a listing of the user's rows, the store receives the fetched subscriptions' batches until one is refused; the result is Ok iff every batch is accepted |
| SubscriptionService.SubscriptionService.LoadItems | src/services/subscriptions.rs:178-189 | the loop's insert calls are exactly those of the specification; Ok iff every batch is accepted |
| GReaderItem.Categories | src/greader/item.rs:4-16 | reading-list first; `read` iff read, `fresh` iff unread, `starred` iff starred; length 2 or 3 |
| GReaderItem.CategoriesDetermineItem | src/greader/item.rs:4-16 | the categories determine the item's flags |
| GReaderItem.IdStrToI64 | src/greader/item.rs:18-25 | always an `i64`; a long-form id decodes its suffix as hexadecimal, any other id as decimal, `-1` on failure |
| GReaderItem.LongFormDecodes | src/greader/item.rs:19-21 | the long form of the lower-case hex digits of a non-negative `i64` decodes to it |
| GReaderItem.DecimalDecodes | src/greader/item.rs:22-23 | the decimal form of every `i64` decodes to it |
| GReaderItem.SentinelIsAmbiguous | src/greader/item.rs:21-23 | `-1` and an undecodable id decode alike |
| ReaderIds.ConvertToLongFormIds | src/routes/reader/mod.rs:8-12 | same length, each id prefixed with `tag:google.com,2005:reader/item/`, order kept |
| ReaderIds.ConvertedIdDecodes | src/routes/reader/mod.rs:8-12 | a converted id decodes as its short form read as hexadecimal, or `-1` |
| ReaderIds.ConvertHexRoundTrip | src/routes/reader/mod.rs:10 | converting the hex digits of a non-negative `i64` and decoding gives the number back |
| ReaderIds.ConvertLongFormTwice | src/routes/reader/mod.rs:10 | an id that is already long-form is prefixed twice and decodes to `-1` |
| ReaderStream.FromParams | src/routes/reader/stream.rs:34-46 | starred first, then read; otherwise unread iff `xt` ends with the read suffix; all otherwise |
| ReaderStream.QueryPageOption | src/routes/reader/stream.rs:106-110 | limit `n` or 100; descending unless `r` is `o`; offset `c` |
| ReaderStream.GetItemIds | src/routes/reader/stream.rs:111-133 | the listing chosen matches the filter, for the user, with the query's page |
| ReaderStream.ItemIdsFrom | src/routes/reader/stream.rs:17-24 | the page's items unchanged, continuation is the next-page cursor |
| ReaderStream.InsertByPublished | src/routes/reader/stream.rs:204 | inserting into a newest-first list keeps it newest first and adds exactly that item |
| ReaderStream.SortByPublished | src/routes/reader/stream.rs:204 | newest first, and a permutation of the input |
| ReaderStream.SortNewestFirst | src/routes/reader/stream.rs:204 | a list already newest first is left as it is |
| ReaderStream.ContentsLookup | src/routes/reader/stream.rs:192-201 | ids are looked up in long form; no ids, no lookup |
| ReaderStream.GetContents | src/routes/reader/stream.rs:186-213 | fixed reading-list header, updated at the clock reading; no ids means no items; otherwise the found items, newest first |
| ReaderEdit.EditTag | src/routes/reader/edit.rs:63-103 | no ids, no call; `a` = read or starred marks read or starred; `r` is consulted only without `a`, and unmarks; all on the long-form ids; at most one call |
| ReaderEdit.EditTagUsesItemTags | src/routes/reader/edit.rs:72-98 | the route acts on exactly the tags a read, starred item carries and an unread, unstarred one lacks |
| ReaderSubscriptions.Edit | src/routes/reader/subscriptions.rs:123-156 | at most one call; subscribe and unsubscribe only for `feed/` streams, subscribe with the prefix stripped, unsubscribe with the full id; `edit` always; anything else nothing |
| ReaderSubscriptions.SubscribeThenUnsubscribe | src/routes/reader/subscriptions.rs:129-144 | subscribing to `feed/<url>` adds `<url>`, and unsubscribing from the added subscription's id removes that id |
| ReaderSubscriptions.QuickAddResponse | src/routes/reader/subscriptions.rs:101-105 | query is the request, one result, stream id is the added subscription's id |
| ReaderSubscriptions.QuickAddStreamUnsubscribes | src/routes/reader/subscriptions.rs:89-106 | the stream id quickadd returns is one `unsubscribe` accepts, and it removes exactly that subscription |
| Common.NewPageOption | src/common/mod.rs:18-24 | no offset; limit and order kept |
| Common.EmptyPage | src/common/mod.rs:33-38 | no items and no next cursor |
| Common.Convert | src/common/mod.rs:40-48 | same length, `f` applied pointwise in order, cursor unchanged |
| Common.ConvertIdentity | src/common/mod.rs:40-48 | converting with the identity changes nothing |
| Common.ConvertComposes | src/common/mod.rs:40-48 | converting twice is converting once with the composition |
| Tokens.NewToken | src/common/token.rs:10-15 | keeps the id and session id; expires 1209600 seconds (14 days) after the clock reading |
| Tokens.ToString | src/common/token.rs:18-20 | for dot-free strings, the printed form splits on `.` into exactly the session id, the decimal expiry and the user id |
| Tokens.Parse | src/common/token.rs:22-35 | a token iff there are exactly three dot-separated parts and the middle one is an `i64`; session id first part, expiry the parsed middle part, user id third |
| Tokens.IsValid | src/common/token.rs:37-39 | valid iff exactly three dot-separated parts with an `i64` in the middle |
| Tokens.ParseToString | src/common/token.rs:18-35 | a token without dots in its strings and an `i64` expiry parses back from its printed form, which is therefore valid |
| Tokens.ParsedTokenReprints | src/common/token.rs:18-35 | a parsed token prints to a string that parses to the same token |
| Tokens.NewTokenWellFormed | src/common/token.rs:10-20 | a fresh token for alphanumeric ids round-trips when its expiry fits in an `i64` |
| Users.NewUser | src/database/users.rs:23-30 | id and email kept, the password stored as its hash, and the token printed from a fresh token for the id |
| Users.UserToken | src/database/users.rs:32-34 | the stored token parses, to a well-formed token |
| Users.NewUserPassword | src/database/users.rs:36-38 | a new user matches its own password, and any password with the same hash |
| Users.NewUserToken | src/database/users.rs:28-34 | a new user's stored token is valid, is the fresh token, and carries the user's id |
| Users.UserRepository.constructor | src/database/users.rs:59-63 | an empty table: every getter returns nothing |
| Users.UserRepository.GetUserById | src/database/users.rs:107-113 | nothing iff no row has that id; otherwise a stored row with that id |
| Users.UserRepository.GetUserByEmail | src/database/users.rs:99-105 | nothing iff no row has that email; otherwise a stored row with that email |
| Users.UserRepository.GetUserByToken | src/database/users.rs:115-121 | nothing iff no row has that token; otherwise a stored row with that token |
| Users.UserRepository.CreateUser | src/database/users.rs:67-83 | an existing email returns its user and changes nothing; otherwise the new user is appended; either way the email then finds the result |
| Users.UserRepository.UpdateUser | src/database/users.rs:85-97 | an absent id returns nothing and changes nothing; otherwise the row with that id is replaced and the argument returned |
| Users.CreatedUserIsFound | src/database/users.rs:67-121 | a user appended with a new email is found by that email, and by id and token when those are new too |
| UserLogin.UserService.Login | src/user/mod.rs:57-75 | unknown email is `NonExistUser`; wrong password `WrongPassword`; success iff the user exists and the password matches, giving the session id twice and the stored token printed again, which parses back to it |
| UserLogin.UserService.GetUser | src/user/mod.rs:82-89 | `InvalidToken` iff no user holds the token; otherwise a stored user holding it |
| UserLogin.UserService.CreateUser | src/user/mod.rs:91-107 | an existing email returns its user unchanged and inserts nothing; otherwise the new user is appended |
| UserLogin.UserService.Register | src/user/mod.rs:77-80 | succeeds; inserts a user only for a new email, who can then log in with the registered password |
| UserLogin.UserService.NewUserLogsIn | src/user/mod.rs:57-75 | a user stored as `User::new` built it logs in with its password: `Ok` with its session id twice and its own stored token |
| UserLogin.NewUserCredentials | src/database/users.rs:32-38 | a new user's token is valid, reprints as stored and carries the session id, and its password matches |
| Configuration.AsStr | src/configuration.rs:61-66 | names are lower-case ASCII |
| Configuration.TryFrom | src/configuration.rs:72-81 | accepted iff the lower-cased value is `local` or `production`, and then its name is that value; otherwise the message starts with the lower-cased value |
| Configuration.TryFromAsStr | src/configuration.rs:61-81 | every environment's name parses back to it |
| Configuration.TryFromIgnoresCase | src/configuration.rs:73 | lower-casing the value first changes nothing |
| Configuration.TryFromAnyCase | src/configuration.rs:72-75 | any value whose lower-case form is an environment's name parses to it |
| Configuration.TryFromUpperCase | src/configuration.rs:73-74 | `LOCAL` parses to `Local` |
| ClientState.ReadTagMatchesServer | public/javascripts/state.js:22-24 | the client's read test on the server's categories is the item's read flag |
| ClientState.IsItemRead | public/javascripts/state.js:22-24 | for tags the server reported, read iff the item's `read` flag, whatever its starred flag |
| ClientState.ReaderState.constructor | public/javascripts/state.js:1-8 | the initial state with the given login flag |
| ClientState.ReaderState.CleanUpState | public/javascripts/state.js:10-16 | everything but `login` back to the initial values; `login` kept |
| ClientState.ReaderState.AddItems | public/javascripts/state.js:18-20 | the items are the old ones followed by the new ones; nothing else changes |
| ClientState.ReaderState.IsItemOpen | public/javascripts/state.js:26-28 | open only while an item is open, and only when its id is the open item's id |
| ClientState.ReaderState.OpenDependsOnId | public/javascripts/state.js:26-28 | two items with the same id are open together, whatever object they are |
| ClientState.ReaderState.OpenItemFound | public/javascripts/state.js:45-47 | the open item is open; the item the identity search finds is open; a loaded open item is found |
| ClientState.ReaderState.IsItemExpand | public/javascripts/state.js:30-32 | expanded iff open and the expand flag is set; expanded implies open |
| ClientState.ReaderState.ItemsUntil | public/javascripts/state.js:34-37 | the prefix of the items up to the first occurrence of the item, or empty when it is absent |
| ClientState.ReaderState.IndexOfOpenItem | public/javascripts/state.js:45-47 | -1 when nothing is open or the open item is not listed; otherwise the first index of the open item |
| ClientState.MarkAsItemAsReadLocally | public/javascripts/state.js:39-43 | each listed item gains one read tag per listing and is read afterwards; other items are unchanged |
| ClientConnector.TokenIn | public/javascripts/connector.js:8-17 | the trimmed value of the first cookie named `token`, `""` without one, and an error when that cookie has no `=` |
| ClientConnector.GetTokenInCookie | public/javascripts/connector.js:8-17 | the only error is the `TypeError`; a cookie string without `;` reads as that one cookie |
| ClientConnector.IsLogin | public/javascripts/connector.js:19-21 | logged in iff the token found is non-empty; errors propagate |
| ClientConnector.ConstructHeader | public/javascripts/connector.js:23-27 | the header is `GoogleLogin auth=` before the token, and stripping that prefix gives the token back |
| ClientConnector.SetThenGetToken | public/javascripts/connector.js:4-17 | the cookie `setTokenInCookie` writes, behind cookies with other names, gives its token back |
| ClientConnector.TokenAfterOthers | public/javascripts/connector.js:8-17 | the first token cookie, behind cookies with other names, decides the token |
| ClientConnector.ExtractLoginToken | public/javascripts/connector.js:55 | an error with fewer than three lines; nothing when the third line has no `=`; otherwise the text after its first `=`, up to a second one |
| ClientConnector.LoginBodyGivesToken | public/javascripts/connector.js:55 | the token is recovered from the server's `SID=..\nLSID=..\nAuth=<token>` body when it holds no `=` and no newline |

## Left out

- Feed fetching: HTTP, retries, `feed_rs` parsing and concurrent requests. The fetched feeds are a map parameter.
- The periodic refresh task, and the blocking refresh call.
- The item store and the stream service. `Item::new_item`, `insert_items`, the item-id listings, `get_item_contents` and the mark/unmark calls are not defined in this code. Routes return the call they make as a datatype, and item inserts are recorded with an acceptance predicate as a parameter.
- `edit_subscription` of the subscription service is not defined in this code either. The route returns it as a call.
- SQL text, connection pools and configuration loading. Tables are a map of subscription rows keyed by user and id, and a sequence of user rows in insertion order.
- The subscription table's primary key is taken to be (user id, id), which is the key every statement uses. Inserting an existing key is an error.
- Inserting a new user is assumed to succeed.
- `DefaultHasher` is a function parameter given to the user table. `new_id`, the clocks and the session ids are parameters.
- SubscriptionService.ExtractItemsFromFeed: every unpublished entry gets the same clock reading, where the source reads the clock once per entry.
- Unicode: `to_lowercase` and JavaScript `trim` are modelled on ASCII only. The environment names and the cookie syntax are ASCII.
- ReaderStream.SortByPublished: the stability of `sort_by` (the order among items published at the same time) is not stated.
- `ItemContent` carries only an id and the publication time, which are the fields the ordering reads.
- The authentication middlewares, the HTTP handler shells, the server setup, the UI and `fetch` are left out.
- Client items are reduced to an id and the categories list, which are the fields the modelled functions read.
- `openItemUrl` is left out: it reads the open item's links, which are not modelled.
- SubscriptionService.SubscriptionService.LoadSubscriptionItems: the listing order of the user's rows is unspecified. The contract names some duplicate-free listing of exactly those rows.
- SubscriptionStore.RemoveCategories: the order in which the hash set yields the labels is unspecified. The method takes them in an arbitrary order, and its contract speaks of the label set only.
- UserLogin.UserService.Login: the source panics when the stored token does not parse. Here that case is a precondition.

## Findings

| source | as written | input that shows it | evidently intended | confidence | as-written member | corrected member |
|---|---|---|---|---|---|---|
| src/database/subscriptions.rs:32-41 | `add_categories` calls `Vec::dedup`, which removes only adjacent duplicates | stored labels `a,b`; adding `["a"]` stores `a,b,a` | each label is stored once | not executed | SubscriptionStore.AddCategoriesDuplicates | SubscriptionStore.AddCategoriesUnique |
