# Portfolio content API — a verified model

This project models the back end of a bilingual (Portuguese/English) video
portfolio site. The back end is an Express + Mongoose service with these parts:

- **Categories.** Each category has a slug id (`categoryId`) and a two-language
  name.
- **Videos.** Each video names its category by that slug.
- **Contact messages.** Visitors submit them through a public form.
- **Site configuration.** A single document holds the contact address and the
  social links.
- **Administrator accounts.** They sign in with JSON Web Tokens.

The database becomes one `ContentStore` class (module `Store`). It holds a map
from record id to document for each collection, the optional config
singleton, and an id counter. Ids come from that one counter, so a larger id
is a later creation, and "newest first" means "larger id first". Every
request handler is a method over the store:

- it answers one of the API's result codes (`Common.Code`);
- its `modifies` clause names what it may change;
- its `ensures` states the whole new state.

The schemas (`CategoryModel`, `VideoModel`, `ContactModel`,
`SiteConfigModel`) are predicates, plus constructors that apply Mongoose's
`trim` and `lowercase` setters. `ContentStore.Valid()` states what the
schemas and unique indexes guarantee about stored documents, and every
handler keeps it.

The main property is **referential integrity**: every video's `category`
names an existing category's `categoryId` (`ContentStore.Integrity()`). The
model proves that these handlers keep it:

- video create, update and delete;
- category create and delete;
- category update, in every outcome except a `server_error`.

That exception is a real gap in the source, recorded under "## Findings".

The auth middleware has two parts:

- `protect` is a method that sets the request's `user` field.
- `admin` is a function.

`jsonwebtoken` is replaced by a concrete token format,
`"<id>.<expiry>.<signature>"`. The signature comes from a key-holding
`Signer` parameter. The model proves that an issued token verifies for
exactly 30 days.

The model also covers the pure helpers the handlers share (module `Query`):

- the `parseInt(...) || default` paging and the `skip` offset;
- `Math.ceil(total / limit)`;
- the `field_dir` sort parser;
- the `read` and `category` filters.

Mongoose applies a field's setters to query filters too. So a lookup such as
`Category.findOne({ categoryId: body.category })` compares the **trimmed**
value, while a raw JavaScript comparison (`!==`) compares the string as
given. The model keeps this distinction. When a handler's `catch` block
turns an error into `server_error`, the model makes that an explicit
outcome:

- `save` rejected the document;
- the database refused a sort key: any key other than `$natural` that is empty, has an empty dotted part, or has a part starting with '$';
- or the handler read a property of an absent body object.

## Model

| member | source | states |
|---|---|---|
| Text.Trim | backend-portfolio/src/models/Category.js:8 | The `trim` setter: the result is no longer than the input and has no leading or trailing white space. |
| Text.TrimDropsSpace | backend-portfolio/src/models/Category.js:8 | Trimming removes exactly the leading and trailing white space: the result is the input's slice between them. |
| Text.TrimIdempotent | backend-portfolio/src/models/Video.js:14 | Trimming a trimmed string changes nothing, so a stored value that is saved again stays the same. |
| Text.TrimNoSpace | backend-portfolio/src/models/SiteConfig.js:7 | A string without white space is its own trim. |
| Text.Lower | backend-portfolio/src/models/Contact.js:13 | The `lowercase` setter keeps the length and folds each capital A–Z and À–Þ (except ×) to its small letter, leaving every other character alone; its result holds no such capital. |
| Text.LowerShape | backend-portfolio/src/models/Contact.js:13-14 | A lower-cased string has no capital that lower-casing folds, and keeps its white space, '@' and '.' positions, so the e-mail pattern judges it as it judged the original. |
| Text.LowerIdempotent | backend-portfolio/src/models/Contact.js:13 | Lower-casing twice is lower-casing once. |
| Text.AccentsFold | backend-portfolio/src/controllers/videoController.js:28-29 | Accented capitals fold too: "JOSÉ" lower-cases to "josé", "MÚSICA" to "música", and a case-insensitive search for "música" finds "MÚSICA". |
| Text.ContainsIgnoresNeedleCase | backend-portfolio/src/controllers/videoController.js:28-29 | A case-insensitive search (`$options: 'i'`) finds a needle exactly when it finds the needle's lower-case form. |
| Text.Split | backend-portfolio/src/middleware/auth.js:15 | `split(sep)`: at least one part, no part holds the separator, and joining the parts with it gives back the input. |
| Text.SplitJoin | backend-portfolio/src/middleware/auth.js:15 | Splitting parts that hold no separator, once joined, gives back exactly those parts. |
| Text.FirstPart | backend-portfolio/src/controllers/videoController.js:39 | The first part of a split is a prefix of the input. It is the whole input exactly when there is one part. Otherwise the separator follows it, and the remaining parts are the split of the rest. |
| Text.FirstPartIs | backend-portfolio/src/controllers/videoController.js:39-40 | A word without the separator is the first part exactly when the input starts with it and it is followed by the separator or the end. |
| Text.ParseNat | backend-portfolio/src/middleware/auth.js:18 | A number field of a token parses exactly when it is a non-empty run of digits. |
| Text.ParseShow | backend-portfolio/src/middleware/auth.js:60-63 | Writing a number in decimal and parsing it back gives the number. |
| Validators.SlugIsTrimmed | backend-portfolio/src/models/Category.js:8-9 | A string that matches `^[a-z0-9-]+$` has no white space, so the trim setter leaves it unchanged. |
| Validators.FindFrom | backend-portfolio/src/models/Contact.js:14 | Returns the first index at or after `from` that holds the character, or `None` exactly when no index there holds it. |
| Validators.FindLast | backend-portfolio/src/models/Contact.js:14 | Returns the last index below the bound that holds the character, or `None` exactly when no index there holds it. |
| Validators.EmailCheckMatchesPattern | backend-portfolio/src/models/SiteConfig.js:8 | The executable e-mail check accepts exactly the strings `^\S+@\S+\.\S+$` matches: no white space, and the string is a + '@' + b + '.' + c with each of a, b and c non-empty. |
| CategoryModel.MakeThenSave | backend-portfolio/src/models/Category.js:4-22 | After the trim setters run, a category validates exactly when its id is a slug and both names are non-empty. A category that validates is stored trimmed. |
| VideoModel.MakeThenSave | backend-portfolio/src/models/Video.js:4-51 | A new video gets `order` 0 and the given `featured` flag. It validates exactly when both titles are non-empty, both URLs start with http:// or https://, and the category is non-empty, all after trimming. The description is never checked. A video that validates is stored trimmed. |
| ContactModel.MakeThenSave | backend-portfolio/src/models/Contact.js:3-24 | A new message is unread. It validates exactly when the trimmed name and message are non-empty and the trimmed, lower-cased address matches the e-mail pattern. The stored address holds no capital that lower-casing folds. |
| SiteConfigModel.MakeThenSave | backend-portfolio/src/models/SiteConfig.js:4-22 | A config built by the trim setters that passes the schema is stored trimmed: its address and all three links. |
| SiteConfigModel.FallbackIsValid | backend-portfolio/src/controllers/configController.js:13-20 | The built-in fallback address "contato@tkprod.com.br", with no links, passes the SiteConfig schema. |
| Tokens.IssuedHasNoSpace | backend-portfolio/src/middleware/auth.js:60-64 | An issued token has no space. |
| Tokens.VerifyIssued | backend-portfolio/src/middleware/auth.js:18 | Verifying a token issued for `id` gives `id` before 30 days have passed since issue, and fails from then on. |
| Query.OrDefault | backend-portfolio/src/controllers/videoController.js:10-11 | `parseInt(q) \|\| d`: NaN and 0 fall back to the default, and the result is never 0. |
| Query.ReadPaging | backend-portfolio/src/controllers/videoController.js:10-12 | Page defaults to 1 and limit to 10 when absent, NaN or 0. Any other number is kept. `skip = (page - 1) * limit`, and the limit is never 0. |
| Query.PagesIsCeiling | backend-portfolio/src/controllers/videoController.js:52 | The page count is `ceil(total / limit)` for either sign of the limit. For a positive limit it is the least number of pages that holds all items, and it is 0 exactly when there are no items. |
| Query.Window | backend-portfolio/src/controllers/videoController.js:48-49 | `.skip().limit()`: a negative skip is refused. Otherwise the window is the slice at `skip` of at most \|limit\| items, and it is shorter only at the end of the list. |
| Query.ParseSortMeaning | backend-portfolio/src/controllers/videoController.js:37-43 | A missing or empty sort means `createdAt` descending. Otherwise the field is the longest prefix without '_'. The direction is descending exactly when that prefix is followed by "_desc" and then '_' or the end of the string. |
| Query.SortRefusals | backend-portfolio/src/controllers/videoController.js:37-47 | The default sort is a key the database accepts, and so is the natural-order key `$natural` in either direction (`$natural`, `$natural_desc`). A sort parameter starting with '_' (`_desc`, `_asc`, `_`) names the empty field, which the database refuses. A parameter without '_' is the field itself. |
| Query.ReadFilter | backend-portfolio/src/controllers/contactController.js:92-97 | The filter is `true` only for the exact string "true" and `false` only for "false". Any other value means no filter. |
| Query.CategoryFilter | backend-portfolio/src/controllers/videoController.js:21-23 | The category clause applies exactly when the parameter is truthy and not "all", and it compares the trimmed value. |
| Store.ContentStore.InsertCategory | backend-portfolio/src/controllers/categoryController.js:61 | Saves a category whose id is free under a fresh record id. The set of category ids grows by exactly that id, and nothing else changes. |
| Store.ContentStore.ReplaceCategory | backend-portfolio/src/controllers/categoryController.js:138 | Saves an existing category that keeps its id or takes a free one. The unique index still holds. |
| Store.ContentStore.RemoveCategory | backend-portfolio/src/controllers/categoryController.js:182 | Removes exactly that category. |
| Store.ContentStore.RenameInVideos | backend-portfolio/src/controllers/categoryController.js:121-124 | `updateMany` moves exactly the videos of the old id to the new id without validation, and every video stays as its setters leave it. |
| Store.ContentStore.InsertVideo | backend-portfolio/src/controllers/videoController.js:144 | Saves a new video under a fresh record id, and nothing else changes. |
| Store.ContentStore.ReplaceVideo | backend-portfolio/src/controllers/videoController.js:218 | Saves an existing video. |
| Store.ContentStore.RemoveVideo | backend-portfolio/src/controllers/videoController.js:250 | Removes exactly that video. |
| Store.ContentStore.InsertContact | backend-portfolio/src/controllers/contactController.js:31 | Saves a new message under a fresh record id, and nothing else changes. |
| Store.ContentStore.ReplaceContact | backend-portfolio/src/controllers/contactController.js:149 | Saves an existing message. |
| Store.ContentStore.RemoveContact | backend-portfolio/src/controllers/contactController.js:181 | Removes exactly that message. |
| Store.ContentStore.InsertUser | backend-portfolio/src/controllers/authController.js:87-92 | Creates a user whose e-mail is free under a fresh record id. The e-mail index stays unique. |
| Store.ContentStore.ReplaceUser | backend-portfolio/src/controllers/authController.js:171 | Saves a user that keeps its e-mail or takes a free one. The e-mail index stays unique. |
| Store.ContentStore.SetConfig | backend-portfolio/src/controllers/configController.js:87 | Saves the single config document. There is never more than one. |
| Store.AddKeepsCategoriesStored | backend-portfolio/src/models/Category.js:7 | Adding a stored category with a free id keeps the ids unique and adds exactly that id. |
| Store.ReplaceKeepsCategoriesStored | backend-portfolio/src/models/Category.js:7 | Replacing a category by a stored one that keeps its id or takes a free one keeps the ids unique. |
| Store.CascadeKeepsVideosStored | backend-portfolio/src/controllers/categoryController.js:121-124 | Moving videos to a trimmed id leaves every video as its setters leave it. |
| Store.AddKeepsEmailsUnique | backend-portfolio/src/controllers/authController.js:76-92 | Adding a user whose e-mail no user holds keeps e-mails unique. |
| Store.ReplaceKeepsEmailsUnique | backend-portfolio/src/controllers/authController.js:164-171 | Replacing a user by one whose e-mail no other user holds keeps e-mails unique. |
| Store.NewestFirst | backend-portfolio/src/controllers/contactController.js:104 | `sort({ createdAt: -1 })` over a selection lists every selected id exactly once, in strictly decreasing order. Their number is what `countDocuments` counts. |
| Store.DecreasingCount | backend-portfolio/src/controllers/contactController.js:100 | A strictly decreasing list has as many elements as distinct values, so the listed page and the count agree. |
| Store.DecreasingRank | backend-portfolio/src/controllers/contactController.js:104-106 | In a newest-first list, the entries newer than the j-th are exactly the j before it. |
| Store.Page | backend-portfolio/src/controllers/contactController.js:103-106 | `find().sort({createdAt:-1}).skip().limit()`: a negative skip is refused. Otherwise the page has min(\|limit\|, selected − skip) documents, each selected and with its stored contents, and the i-th has exactly skip + i selected documents newer than it. |
| CategoryController.CreateCategory | backend-portfolio/src/controllers/categoryController.js:29-76 | Answers `category_exists` exactly when the lookup finds a category: the trimmed id is taken, or the id is absent and any category exists (`findOne({ categoryId: undefined })` matches every document). Answers `created` exactly when the lookup finds none, the body has a name and the document validates, which needs a given id; the category is then added under a fresh id and nothing else changes. Any other outcome is `server_error` and changes nothing. Integrity is kept. |
| CategoryController.MergeKeepsOrReplaces | backend-portfolio/src/controllers/categoryController.js:129-134 | An empty or absent `categoryId`, `name.pt` or `name.en` keeps the old value. A truthy one replaces it, trimmed. Without a rename the id stays. |
| CategoryController.UpdateCategory | backend-portfolio/src/controllers/categoryController.js:81-152 | As written, in order: an unknown record gives `not_found` and a rename to a taken id gives `category_exists`, both changing nothing. Otherwise a rename first moves the videos, then `save` answers `ok` and stores the merge, or `server_error` and keeps the old category while the videos stay moved. Integrity is kept in every outcome except `server_error`. |
| CategoryController.MoveVideos | backend-portfolio/src/controllers/categoryController.js:118-125 | The count-then-`updateMany` step has the effect of the cascade whether or not any video uses the id. |
| CategoryController.SaveCategory | backend-portfolio/src/controllers/categoryController.js:138 | `save` stores the category when it validates and answers `server_error`, storing nothing, when it does not. |
| CategoryController.UpdateCategoryValidatedFirst | backend-portfolio/src/controllers/categoryController.js:106-138 | The update with `save`'s checks run before the cascade: a rejected update writes nothing, an accepted one stores the merge and moves the videos, and integrity is kept in every outcome. |
| CategoryController.SaveMerged | backend-portfolio/src/controllers/categoryController.js:118-138 | A merged category that validates is stored trimmed and keeps its id or takes a free one. Cascading the videos together with the rename keeps every reference resolvable. |
| CategoryController.NewCategoryKeepsReferences | backend-portfolio/src/controllers/categoryController.js:61 | Adding a category keeps every reference resolvable. |
| CategoryController.RenamelessUpdateKeepsReferences | backend-portfolio/src/controllers/categoryController.js:129-138 | An update that keeps the id keeps every reference resolvable. |
| CategoryController.CascadeRedirects | backend-portfolio/src/controllers/categoryController.js:121-124 | After the cascade no video names the old id. Every video that named it names the new one, every other video is unchanged, and no video is added or removed. |
| CategoryController.CascadeWithoutUses | backend-portfolio/src/controllers/categoryController.js:118-119 | Skipping `updateMany` when no video uses the id has the same effect as running it. |
| CategoryController.CascadeKeepsReferences | backend-portfolio/src/controllers/categoryController.js:118-138 | A rename together with the cascade keeps every reference resolvable, whatever the new id. |
| CategoryController.DeleteCategory | backend-portfolio/src/controllers/categoryController.js:157-196 | Answers `not_found` for an unknown record. While videos name the category it answers `category_in_use` with their exact count and removes nothing. Otherwise it removes exactly that category. Integrity is kept. |
| CategoryController.UnusedDeleteKeepsReferences | backend-portfolio/src/controllers/categoryController.js:171-182 | Removing a category that no video names keeps every reference resolvable. |
| CategoryController.DeleteTwice | backend-portfolio/src/controllers/categoryController.js:159-182 | A successful delete followed by a second one answers `not_found` the second time. |
| CategoryController.RejectedRenameStrandsVideos | backend-portfolio/src/controllers/categoryController.js:118-138 | As written: a rename to a free id, moved by the cascade, leaves every moved video naming an id no category holds, so integrity breaks if `save` then refuses. |
| CategoryController.ShortFilmsIsStored | backend-portfolio/src/models/Category.js:4-22 | The sample category "short-films" is a stored category. |
| CategoryController.ClipIsStored | backend-portfolio/src/models/Video.js:4-51 | The sample video is a stored video. |
| CategoryController.OneShortFilm | backend-portfolio/src/controllers/categoryController.js:61 | Builds a valid store with one category, "short-films", and one video in it. |
| CategoryController.RenameToCapitalisedIdStrandsVideo | backend-portfolio/src/controllers/categoryController.js:106-138 | Renaming "short-films" to "Shorts" answers `server_error`. The category keeps its id, while the video now names "Shorts", which no category holds. |
| CategoryController.ShortsRejected | backend-portfolio/src/models/Category.js:9 | "Shorts" is a rename of "short-films" to a free id that `^[a-z0-9-]+$` rejects. |
| CategoryController.GetCategoryVideos | backend-portfolio/src/controllers/categoryController.js:201-257 | Answers `not_found` for an unknown record. Otherwise the count is the number of videos naming the category, the page count is `ceil(total / limit)`, and the page holds min(\|limit\|, total − skip) of those videos with their stored contents. Without a sort, or with `createdAt_desc`, the page is newest first from position `skip`. A negative skip, or a sort key the database refuses, is `server_error` with an empty page. |
| VideoController.NoFilterSelectsAll | backend-portfolio/src/controllers/videoController.js:18-31 | With no category filter and no search, every video is selected. |
| VideoController.UnknownLanguageFindsNothing | backend-portfolio/src/controllers/videoController.js:15-31 | A search in a language other than "pt" and "en" targets fields the schema lacks and selects nothing. |
| VideoController.SearchIgnoresCase | backend-portfolio/src/controllers/videoController.js:26-31 | The search selects the same videos whatever the case of the search string. |
| VideoController.CategoryFilterSelectsUses | backend-portfolio/src/controllers/videoController.js:21-23 | A category filter without a search selects exactly the videos that name the trimmed category. |
| VideoController.GetVideos | backend-portfolio/src/controllers/videoController.js:8-72 | The count is the number of videos matching the filters, and the page count is `ceil(total / limit)`. The page holds min(\|limit\|, total − skip) matching videos with their stored contents. Under the default sort they are newest first from position `skip`. A negative skip, or a sort key the database refuses, is `server_error` with an empty page. |
| VideoController.GetVideoById | backend-portfolio/src/controllers/videoController.js:77-100 | Answers the stored video, or `not_found` exactly when there is none. |
| VideoController.NewVideoKeepsReferences | backend-portfolio/src/controllers/videoController.js:119-127 | Storing a video whose category exists keeps every reference resolvable. |
| VideoController.CreateVideo | backend-portfolio/src/controllers/videoController.js:105-159 | Answers `invalid_category` exactly when the lookup finds no category: the trimmed category is held by none, or the category is absent and there are no categories at all. Answers `created` exactly when the lookup finds one, the body has title and description objects, and the document validates; the video (order 0, `featured` only when given as true) is then added under a fresh id; it was given a category and names an existing one. Any other outcome is `server_error` and changes nothing. Integrity is kept. |
| VideoController.AbsentCategoryIsNotSaved | backend-portfolio/src/controllers/videoController.js:119-144 | A body without a category, which passes the lookup whenever a category exists, builds a video that `save` rejects. |
| VideoController.MergeKeepsOrReplaces | backend-portfolio/src/controllers/videoController.js:192-214 | An empty or absent `thumbnail`, `videoUrl` or `category` keeps the old value, and a truthy one replaces it, trimmed. An absent title or description object keeps the old one; in a given one, an empty or absent `pt` or `en` keeps the old part and a truthy one replaces it, trimmed. `featured` and `order` change exactly when defined. A merged video that validates is stored trimmed. |
| VideoController.SaveVideo | backend-portfolio/src/controllers/videoController.js:218 | `save` stores the video when it validates and answers `server_error`, storing nothing, when it does not. |
| VideoController.MergedVideoKeepsReferences | backend-portfolio/src/controllers/videoController.js:178-206 | When the category check passed, the merged video's category exists, so every reference stays resolvable. |
| VideoController.UpdateVideo | backend-portfolio/src/controllers/videoController.js:164-240 | The category check comes first: `invalid_category` exactly when a truthy category is not held by any category, even for a missing video. Then `not_found` exactly when the video is missing. Otherwise the merge is stored when it validates (`ok`) and nothing changes when it does not (`server_error`). No other video changes, and integrity is kept. |
| VideoController.SavePatched | backend-portfolio/src/controllers/videoController.js:192-218 | The merge and `save` of an accepted update: stored exactly when the merge validates, and integrity is kept. |
| VideoController.DeleteVideo | backend-portfolio/src/controllers/videoController.js:245-271 | Answers `ok` exactly when the video exists, and then removes exactly that video. Otherwise it answers `not_found` and changes nothing. Integrity is kept. |
| VideoController.RemovedVideoKeepsReferences | backend-portfolio/src/controllers/videoController.js:250 | Removing a video keeps every reference resolvable. |
| ContactController.BreakLines | backend-portfolio/src/controllers/contactController.js:60 | `replace(/\n/g, '<br>')` leaves no newline and changes nothing in a text without one. |
| ContactController.BreakLinesChar | backend-portfolio/src/controllers/contactController.js:60 | A newline becomes "<br>" and any other character stays as it is. |
| ContactController.BreakLinesAppend | backend-portfolio/src/controllers/contactController.js:60 | Replacing in a concatenation is replacing in each part, so each character is replaced in place and the order is kept. |
| ContactController.BreakLinesExample | backend-portfolio/src/controllers/contactController.js:60 | "a\nb" becomes "a<br>b". |
| ContactController.Recipient | backend-portfolio/src/controllers/contactController.js:34-35 | The recipient is the stored config's address when a config exists, and the environment's default otherwise. |
| ContactController.SendContactMessage | backend-portfolio/src/controllers/contactController.js:9-80 | Answers `created` exactly when the message validates; it then adds exactly one unread message with the trimmed fields under a fresh id. Otherwise it answers `server_error`, stores nothing and sends nothing. In production a notification to the recipient is handed to the transport, and the answer does not depend on it. |
| ContactController.ReadFilterPartition | backend-portfolio/src/controllers/contactController.js:92-97 | No filter selects every message. The read and unread selections are disjoint and together hold every message. |
| ContactController.GetContactMessages | backend-portfolio/src/controllers/contactController.js:85-129 | The count is the number of messages the filter selects, and the page count is `ceil(total / limit)`. The page holds min(\|limit\|, total − skip) of them, newest first from position `skip`. A negative skip is `server_error`. |
| ContactController.UpdateMessageStatus | backend-portfolio/src/controllers/contactController.js:134-163 | Answers `ok` exactly when the message exists. Only `read` changes, and only when the body defines it. Otherwise it answers `not_found` and changes nothing. |
| ContactController.DeleteMessage | backend-portfolio/src/controllers/contactController.js:168-195 | Answers `ok` exactly when the message exists, and then removes exactly that message. Otherwise it answers `not_found` and changes nothing. |
| ConfigController.DefaultWithoutEnvIsValid | backend-portfolio/src/controllers/configController.js:12-21 | Without an address in the environment, the default document passes the schema. |
| ConfigController.GetConfig | backend-portfolio/src/controllers/configController.js:7-36 | An existing config is answered unchanged and nothing is created. Without one, the default (the environment's address or the fallback, with three empty links) is created, and it fails (`server_error`, nothing stored) exactly when it does not validate, which never happens without an environment address. |
| ConfigController.UpdateKeepsOmitted | backend-portfolio/src/controllers/configController.js:66-83 | An empty or absent address keeps the old one, and a truthy one replaces it, trimmed. An absent links object keeps all links. In a given links object, each of `instagram`, `youtube` and `vimeo` that is defined, even as the empty string, replaces the old link, trimmed, and each undefined one keeps it. An empty body changes nothing. |
| ConfigController.UpdateConfig | backend-portfolio/src/controllers/configController.js:41-101 | Without a config, one is built from the body, with the environment's or the fallback address and empty links; otherwise the existing one is updated. The result is stored (`ok`) exactly when it validates, and nothing changes (`server_error`) otherwise. There is never more than one config. |
| AuthMiddleware.Request.constructor | backend-portfolio/src/middleware/auth.js:5-6 | A request starts with its header and no attached user. |
| AuthMiddleware.TokenOf | backend-portfolio/src/middleware/auth.js:15 | There is no second segment exactly when the header has no space. |
| AuthMiddleware.Authenticate | backend-portfolio/src/middleware/auth.js:9-42 | No token exactly when the header is absent, empty or does not start with "Bearer". A subject exactly when the second segment exists and verifies, and the subject is the verified id. Every other case is an invalid token. |
| AuthMiddleware.BearerIssuedAuthenticates | backend-portfolio/src/middleware/auth.js:9-21 | "Bearer <token>" for a token issued to `id` authenticates as `id` until 30 days after issue, and is an invalid token after that. |
| AuthMiddleware.BearerWithoutTokenIsInvalid | backend-portfolio/src/middleware/auth.js:15-32 | A header that starts with "Bearer" but has no space is refused as an invalid token, not as a missing one. |
| AuthMiddleware.Protect | backend-portfolio/src/middleware/auth.js:5-43 | A refused request is answered `unauthorized` with its reason and the request is left alone. Otherwise the token's user, without the password, is attached (none if no such user exists) and the request goes on. |
| AuthMiddleware.Admin | backend-portfolio/src/middleware/auth.js:46-57 | Passes exactly when a user is attached and its role is exactly "admin". Otherwise `forbidden`. |
| AuthMiddleware.GenerateToken | backend-portfolio/src/middleware/auth.js:60-64 | The token has no space and verifies as `id` at every moment of the next 30 days. |
| AuthMiddleware.IssuedVerifiesUntilExpiry | backend-portfolio/src/middleware/auth.js:60-63 | An issued token verifies as its id at every moment before its expiry. |
| AuthController.OwnEmail | backend-portfolio/src/controllers/authController.js:22 | With unique e-mails, a user is the only holder of its address. |
| AuthController.Login | backend-portfolio/src/controllers/authController.js:7-66 | A missing or empty e-mail or password is `validation_error`. An unknown address and a wrong password both give the same `invalid_credentials` and change nothing. A success changes only the user's `lastLogin` and answers that user's token and id, name, e-mail and role. |
| AuthController.Register | backend-portfolio/src/controllers/authController.js:71-121 | Answers `user_exists` exactly when the lookup finds a user: the address is taken, or the address is absent and any user exists, creating nothing. Otherwise it creates the user with role "admin" under a fresh id and answers its token and account. |
| AuthController.GetProfile | backend-portfolio/src/controllers/authController.js:126-154 | Answers the user without the password. A user no longer stored is `not_found`. No attached user is `server_error`. |
| AuthController.Patched | backend-portfolio/src/controllers/authController.js:164-169 | An empty or absent name or e-mail keeps the old value. The password changes only when given. Role and last login never change. |
| AuthController.EmptyPatchKeepsUser | backend-portfolio/src/controllers/authController.js:164-169 | A patch with nothing in it leaves the user unchanged. |
| AuthController.UpdateProfile | backend-portfolio/src/controllers/authController.js:159-196 | Stores the patched user exactly when its address is free or its own. An address another user holds is `server_error`. A user no longer stored is `not_found`. Nothing else changes. |
| AuthController.ResetPassword | backend-portfolio/src/controllers/authController.js:201-231 | Answers `not_found` exactly when the lookup finds no user: no user has the address, or the address is absent and there are no users. It changes nothing either way. |
| AuthController.RegisterThenAdminRequest | backend-portfolio/src/controllers/authController.js:87-104 | A freshly registered user's token, sent as "Bearer <token>" within 30 days, passes `protect` and then `admin`. |

## Left out

- `getCategories` (`categoryController.js:8-24`): it lists every category sorted by Portuguese name. That is a read with no state and no decision; it is not part of this model.
- Sort orders other than newest first: `GetVideos` and `GetCategoryVideos` parse the `sort` parameter (`Query.ParseSort`, proved in `Query.ParseSortMeaning`) but order their page newest first. Under any other sort they claim only the count, the page size, membership and contents, not which items fill the window.
- VideoController.GetVideos: the `$regex` search is modelled as a case-insensitive literal substring match. Regular-expression metacharacters in the search string are not interpreted.
- Field names beyond "pt" and "en" in `title.${lang}`: such a search targets a field the schema lacks, and the model treats it as selecting nothing.
- Text.Lower: only A–Z and the Latin-1 capitals À–Þ (except ×) fold. Other Unicode capitals (Latin Extended, Greek, Cyrillic, the dotted İ, and the context-dependent final sigma) are left as they are. This bounds Text.ContainsIgnoringCase, Text.ContainsIgnoresNeedleCase, VideoController.GetVideos, VideoController.SearchIgnoresCase and ContactModel.MakeThenSave to those letters.
- Text.ContainsIgnoresNeedleCase: case-insensitive only for the letters Text.Lower folds.
- VideoController.SearchIgnoresCase: case-insensitive only for the letters Text.Lower folds.
- ContactModel.MakeThenSave: the stored address is free only of the capitals Text.Lower folds.
- `jwt.sign` / `jwt.verify`: replaced by the concrete token "<id>.<expiry>.<signature>" with an uninterpreted `Signer` parameter. Token forgery, algorithm choice and `jwt.verify` throwing for other reasons are not modelled.
- The User model (`models/User.js`) is not part of this model. Password hashing and `matchPassword` are the parameters `hash` and `matches`.
- The `register` branch that answers `invalid_data` when `User.create` returns nothing cannot happen with Mongoose and is not modelled.
- The Nodemailer transport and `sendMail`: the model returns the mail it would hand over. Whether sending succeeds does not affect the answer, which is the only effect modelled.
- `express-validator`: no validation chains are attached in the routes, so `validationResult` is always empty. Those `validation_error` branches are left out.
- Timestamps (`createdAt`, `updatedAt`, `lastLogin`): creation order is the record-id order, `lastLogin` is the caller-supplied time `now`, and `updatedAt` is not stored.
- Concurrency: handlers are atomic. The non-atomic window between the cascade and `save` of a rename under concurrent requests is not modelled.
- Mongoose type casting of non-string bodies, such as a number given as a category id: body fields are strings, booleans and integers as typed.
- Repeated query parameters: Express turns `?sort=a&sort=b` or `?category=a&category=b` into an array. The model takes every query parameter as one optional string, so it cannot express these inputs. The source answers `server_error` for a repeated `sort`, where `split` throws, and Mongoose casts a repeated `category` to an `$in` filter.
- VideoController.GetVideos: the sort-key check (`Query.SortAccepted`) follows the empty-key, empty-part and '$'-prefix rules and the `$natural` exception only. The database's limit on the number of dotted parts and a NUL character in the key are not modelled, so such a key is answered `ok` here.
- CategoryController.GetCategoryVideos: the same sort-key check, with the same two details left out.
- An absent `thumbnail` or `videoUrl` on video create, and an absent contact field, are modelled as the empty string: the schema requires them and rejects both alike. An absent `categoryId` on category create, `category` on video create and `email` on register or reset are kept apart, because the lookup on them matches any document.
- AuthController.Register: the User schema is not part of this model, so a register without an e-mail when no user exists creates a user with the empty address instead of whatever that schema decides.
- A contact form without an e-mail is answered 500 `server_error`, because `save` rejects the document (`ContactController.SendContactMessage`).
- The routes' `protect` / `admin` wiring is not modelled per route. `AuthController.RegisterThenAdminRequest` shows the composition.

## Findings

| source | as written | input that shows it | evidently intended | confidence | as-written member | corrected member |
|---|---|---|---|---|---|---|
| backend-portfolio/src/controllers/categoryController.js:118-138 | A rename rewrites every video to the new id with `updateMany` before `category.save()` checks the id against `^[a-z0-9-]+$`. When `save` rejects the id, the handler answers 500 but the videos have already moved. | A category "short-films" with one video, renamed with `{ "categoryId": "Shorts" }`: the answer is `server_error`, the category keeps "short-films", and the video names "Shorts", which no category holds. | Validate the merged category before moving any video, so a rejected rename writes nothing and every video keeps naming an existing category. | not executed | CategoryController.RenameToCapitalisedIdStrandsVideo | CategoryController.UpdateCategoryValidatedFirst |
