# A verified model of the chai-backend controllers

This project models the decision logic of the chai-backend video platform. That backend is a set of Express controllers over MongoDB and the Cloudinary media store. The model keeps two controllers:

- **Video controller.**
  - `getAllVideos` lists the catalog: filter, sort, skip, limit, then the pagination totals.
  - `publishAVideo`, `updateVideo` and `deleteVideo` change the catalog and the media store.
  - `getVideoById` also records the view in the caller's watch history. A rewatch refreshes the existing entry. A first view appends a snapshot.
- **User controller.**
  - Registration, login, logout and the refresh-token life cycle.
  - Password change and account update.
  - The channel profile, computed from the subscriptions collection.

The modules:

- `Wrappers`: `Option`, `Result`, and the error kinds.
- `Schema`: the `Video` and `Subscription` documents.
- `Text`: JavaScript truthiness, `trim`, an ASCII-only `toLowerCase`, and case-insensitive containment.
- `Media`: the media store, as a log of upload and release calls.
- `History`: the watch-history upsert.
- `Channel`: the subscription figures.
- `Accounts`: user documents and the users collection.
- `Videos`: the catalog.
- `Listing`: the listing pipeline.

How the source is mapped:

- **Documents.** A document that a handler fetches, changes field by field and saves is a class: `User`, `UserCollection`, `Catalog`, `MediaStore`. Each collection is a map from id to document.
- **Errors.** Errors are the kinds behind the HTTP statuses the handlers raise:
  - `BadRequest` (400);
  - `Unauthorized` (401);
  - `NotFound` (404);
  - `Conflict` (409);
  - `ServerError` (500). This also covers a dereference of a missing document, which throws a TypeError, and a failed upload, whose helper throws from `fs.unlink`; the error middleware turns either into a 500.
- **Opaque externals.** Everything the handlers cannot decide themselves is a parameter:
  - the password check and JWT verification are function parameters;
  - newly signed tokens are value parameters;
  - what the media store answers to an upload is a value parameter;
  - the current time (`new Date()`) is a value parameter;
  - the sort field of the listing is a key function.

## Model

| member | source | states |
|---|---|---|
| Text.Trim | src/controllers/user.controller.js:48 | `field.trim()` is empty exactly when the field is all whitespace; otherwise it starts and ends with a non-whitespace character, occurs in the field right after the leading whitespace, and only whitespace follows it |
| Text.LiteralOccurrenceMatches | src/controllers/video.controller.js:27-32 | a query that occurs literally in a title or description matches it under the literal, ASCII-folded reading of the case-insensitive `$regex` (see Listing.Filter under Left out) |
| Text.MatchIgnoresCase | src/controllers/video.controller.js:27-32 | the match gives the same answer whatever the case of the query and of the text |
| Text.LowerIdempotent | src/controllers/user.controller.js:94 | lowercasing a stored, already lowercased username changes nothing, so lookups by `toLowerCase()` find it |
| Media.MediaStore.Upload | src/utils/cloudinary.js:13-31 | with a falsy local path (absent or empty): nothing is sent and the result is null; otherwise one upload is logged; a response is returned, and a failed upload is a ServerError, because the catch block's `fs.unlink` without a callback throws before `return null` |
| Media.MediaStore.UploadBoth | src/controllers/video.controller.js:129-130 | two awaited uploads: the second is attempted only if the first did not throw; a failure of either is a ServerError; on success both answers come back |
| Media.MediaStore.Release | src/controllers/video.controller.js:289-290 | a release of a URL is logged after everything logged before it |
| History.Upsert | src/controllers/video.controller.js:190-206 | a view keeps every earlier entry in place with its video, adds at most one entry, and leaves the video with an entry stamped with the view time |
| History.IndexOf | src/controllers/video.controller.js:190 | `findIndex` on the video id: -1 when no entry has that id; otherwise the first entry with it |
| History.FindHistoryIndex | src/controllers/video.controller.js:190 | the scan returns -1 exactly when the video is not in the history; otherwise the first index holding it; it agrees with `IndexOf` |
| History.RewatchTouchesOnlyTimestamp | src/controllers/video.controller.js:190-194 | a rewatch keeps the length and every entry's snapshot fields; only the found entry changes, and only its `watchedAt`, which becomes now |
| History.FirstViewAppends | src/controllers/video.controller.js:195-206 | a first view keeps every earlier entry and appends one entry with the video's id, title, thumbnail and duration, progress 0 and watchedAt now |
| History.ViewRecordsExactlyThatVideo | src/controllers/video.controller.js:190-206 | after a view the video is in the history, and the set of watched videos is the old set plus this video |
| History.ViewKeepsUnique | src/controllers/video.controller.js:190-206 | a history with at most one entry per video keeps that property after a view |
| History.UniqueIffCountAtMostOne | src/controllers/video.controller.js:190-206 | "no two entries share a video id" holds exactly when every video is counted at most once |
| History.CountZeroIffUnwatched | src/controllers/video.controller.js:190 | a video has no entry exactly when `findIndex` finds none |
| History.RewatchKeepsLength | src/controllers/video.controller.js:190-206 | for any history, a second view of the same video keeps the length the first view left |
| History.RewatchIsIdempotent | src/controllers/video.controller.js:190-206 | viewing the same video twice, for a history without duplicates: the second view keeps the length the first left, the video has exactly one entry, and that entry carries the second view's time |
| Accounts.User.RecordView | src/controllers/video.controller.js:190-206 | the user's history becomes the upsert of the old history with the video at the given time; no other field changes |
| Accounts.RefreshRefusal | src/controllers/user.controller.js:216-233 | a refresh is accepted exactly when a token was sent, it decodes to an existing user, and that user's stored token is exactly this one; no token is unauthorized |
| Accounts.RefusedAfterLogout | src/controllers/user.controller.js:190-200 | once logout has unset the stored token, no token that decodes to that user is accepted |
| Accounts.RefusedAfterNewerLogin | src/controllers/user.controller.js:11-20 | once a different token has been stored for the user, the earlier one is refused |
| Accounts.UserCollection.FindByUsername | src/controllers/user.controller.js:388-393 | no result exactly when no user has that username; otherwise a user stored under exactly that name |
| Accounts.UserCollection.Register | src/controllers/user.controller.js:28-117 | a field that trims to empty gives BadRequest; an existing username or email gives Conflict; a falsy avatar path gives ServerError when the multipart form lacks the avatar field (`req.files?.avatar[0]` throws), BadRequest otherwise; a failed avatar upload gives ServerError and skips the cover upload; a failed cover upload gives ServerError and adds no user; a field that was not sent gives ServerError; a lowercased username another user already holds gives ServerError (duplicate key on the unique index); success exactly when the checks pass, the avatar path is truthy, neither upload failed, all four fields were sent and the lowercased username is free; uploads happen only after the checks; no two users share a username or an email afterwards if none did before; the new user has the lowercased username, and coverImage "" when no cover path was sent; no user is added on failure |
| Accounts.UserCollection.UploadAndStore | src/controllers/user.controller.js:79-95 | the avatar upload, then the cover upload, then the create: every failure is a ServerError and adds no user; success exactly when both uploads succeeded, all four fields were sent and the lowercased username is free; the new user holds the uploaded URLs |
| Accounts.UserCollection.Create | src/controllers/user.controller.js:88-95 | `User.create` fails exactly when some user already holds the username or the email (the unique indexes), and then changes nothing; otherwise the document is stored under a fresh id, and usernames and emails stay unique |
| Accounts.UserCollection.IssueTokens | src/controllers/user.controller.js:11-25 | the issued refresh token becomes the user's single stored token; nothing else changes |
| Accounts.UserCollection.Login | src/controllers/user.controller.js:119-187 | BadRequest exactly when neither username nor email is sent; NotFound exactly when one is sent and no user matches; with a match the result is success or Unauthorized: success when every matching user passes the password check, a failure when every one fails, and Unauthorized only with a matching user that fails it; no failure changes any user; success stores the new refresh token for the matching user only |
| Accounts.UserCollection.Logout | src/controllers/user.controller.js:189-213 | the caller's stored refresh token is unset; nothing else changes |
| Accounts.UserCollection.Refresh | src/controllers/user.controller.js:215-256 | the token comes from the cookie, else from the body; a refused token changes nothing; an accepted one stores a new refresh token for that user |
| Accounts.UserCollection.ChangePassword | src/controllers/user.controller.js:258-277 | a failed check of the old password gives BadRequest and changes nothing; otherwise the password becomes the new one and nothing else changes |
| Accounts.UserCollection.UpdateAccountDetail | src/controllers/user.controller.js:285-306 | neither full name nor email gives BadRequest and changes nothing; an email another user holds gives ServerError (duplicate key on the unique index) and changes nothing; otherwise the fields sent replace the stored ones and the others stay; usernames and emails stay unique |
| Accounts.UserCollection.ChannelProfileOf | src/controllers/user.controller.js:381-453 | no username gives BadRequest; no user under the lowercased name gives NotFound; success whenever a username is sent and a user is stored under its lowercased form, with the profile of that user with the number of its subscribers, the number of channels it subscribes to, and whether the caller subscribes to it |
| Channel.SubscriberCountIsMultiplicity | src/controllers/user.controller.js:395-414 | `subscriberCount` is the number of subscriptions whose channel is the user |
| Channel.SubscribedToCountIsMultiplicity | src/controllers/user.controller.js:403-417 | `channelSubsribedToCount` is the number of subscriptions whose subscriber is the user |
| Channel.SubscribeCounts | src/controllers/user.controller.js:395-417 | one more subscription raises exactly the channel's subscriber count and the subscriber's subscribed-to count by one |
| Channel.AsWrittenOnlySeesSelf | src/controllers/user.controller.js:418-424 | as written, `isSubscribed` holds exactly when the caller is the channel itself and the channel subscribes to someone |
| Channel.AsWrittenMissesSubscriber | src/controllers/user.controller.js:418-424 | one subscription of user 2 to channel 1: as written user 2 is reported as not subscribed, while the corrected flag says subscribed |
| Channel.IsSubscribedIffSubscriptionExists | src/controllers/user.controller.js:395-401 | the corrected flag holds exactly when the subscription (caller, channel) exists |
| Videos.PublishPrecheck | src/controllers/video.controller.js:107-126 | the checks pass exactly when the owner exists, neither title nor description trims to empty, and both file paths are truthy; a missing owner is NotFound; a blank text is BadRequest; a missing file field in a multipart form is ServerError (`req.files?.videoFile[0]` throws) exactly when the owner exists and the texts are not blank; a falsy path otherwise is BadRequest |
| Videos.CreateOutcome | src/controllers/video.controller.js:130-152 | after the precheck: a failed upload, a missing duration, title or description are each a server error (the 401 for a missing upload result is unreachable); otherwise success under the next free id |
| Videos.Catalog.Publish | src/controllers/video.controller.js:88-173 | a failed precheck changes nothing and uploads nothing; otherwise the video file is uploaded, and the thumbnail only if that upload succeeded; a failed upload is a ServerError; a video is created exactly when both uploads produced a result, a duration came back and both texts were sent; it gets a fresh id and holds the URLs, the duration, the text and the owner |
| Videos.Catalog.UploadAndCreate | src/controllers/video.controller.js:129-152 | the video file upload is logged, then the thumbnail upload only if the first succeeded; the outcome is `CreateOutcome`; a created video gets a fresh id and holds the URLs, the duration, the text and the owner; otherwise the catalog is unchanged |
| Videos.Catalog.Update | src/controllers/video.controller.js:222-277 | without a new file (a falsy thumbnail path) the old thumbnail stays and nothing is uploaded or released; with one, a failed upload is a ServerError, an empty URL a BadRequest, and the old URL is released only after the upload returned a URL, and the video then holds the new URL; title and description change only when sent |
| Videos.Catalog.Delete | src/controllers/video.controller.js:279-303 | the video is removed and its file URL, then its thumbnail URL, are released; an unknown id fails without any change |
| Videos.Catalog.GetVideoById | src/controllers/video.controller.js:175-220 | an unknown video is NotFound and no history changes; otherwise the caller's history becomes the upsert, no other user changes, and a history without duplicates stays without them |
| Listing.SortOrder | src/controllers/video.controller.js:22 | the order is -1 exactly for the string "dsc", and 1 otherwise |
| Listing.FilterKeepsExactlyMatches | src/controllers/video.controller.js:26-49 | the match stage keeps every video that matches the text query (in title or description) and the owner, as often as it occurs, and no other video |
| Listing.SortBy | src/controllers/video.controller.js:59-63 | the result is sorted on the key in the requested direction and is a permutation of the input |
| Listing.TotalPages | src/controllers/video.controller.js:81 | `Math.ceil(total / limit)`: the fewest pages of `limit` videos that hold all of them |
| Listing.PaginateIsWindow | src/controllers/video.controller.js:18-81 | over any ordered list: a page is served exactly when page and limit are at least 1; it is then the window [(page - 1) * limit, page * limit), clipped to the list, so it holds at most `limit` videos |
| Listing.ListingSucceedsIff | src/controllers/video.controller.js:15-18 | a listing succeeds exactly when page and limit, after their defaults, are both at least 1; otherwise the aggregation refuses the negative skip or the non-positive limit |
| Listing.ListedPageIsWindow | src/controllers/video.controller.js:11-70 | page and limit default to 1 and 10; a listed page is the window [skip, skip + limit) of the filtered, sorted videos, so it holds at most `limit`; `totalVideos` counts every match before skip and limit |
| Listing.ListedVideosQualify | src/controllers/video.controller.js:55-70 | every listed video is in the catalog and matches the filter, and the page is in the requested order |
| Listing.DefaultsListFirstTen | src/controllers/video.controller.js:11 | without page and limit the request succeeds with page 1, limit 10 and the first ten matches |
| Listing.PagesCoverListing | src/controllers/video.controller.js:53-81 | pages 1 to totalPages, one after another, are exactly the filtered, sorted videos: none missing, none repeated |
| Listing.SecondPageOfTwelve | src/controllers/video.controller.js:15-18 | with twelve matches, page 2 of 5 holds the sixth to tenth matches, and the totals are 12 videos and 3 pages |
| Listing.GetAllVideos | src/controllers/video.controller.js:34-49 | without `userId` every owner is listed; with it, the owner is resolved from the lowercased username, and an unknown username is a server error rather than an empty page |

## Left out

- Persistence is not modelled:
  - Saving, `findById` re-fetches and `.select` projections are left out.
  - The re-fetch checks after create (user.controller.js:105-108, video.controller.js:159-161) cannot fail in an in-memory store.
  - What each response holds is left out: cookies, envelopes and status codes.
  - Only the error kind is kept.
- The user and video schemas (`user.model.js`, `video.model.js`) are not part of this model:
  - fullName, email, password and username are assumed required: a create without one of them is a ServerError;
  - username and email are assumed to carry unique indexes: Accounts.UserCollection.Create and Accounts.UserCollection.UpdateAccountDetail fail with a ServerError (duplicate key) on a value another user holds;
  - username and email are assumed to carry no `lowercase` or `trim` setter, so query filters compare values as sent. This matters for the conflict check in Accounts.UserCollection.Register, the lookup in Accounts.UserCollection.Login and the stored email in Accounts.UserCollection.UpdateAccountDetail. With such setters the first two would be case-insensitive;
  - title and description are assumed required in the video schema: a create without one of them is a ServerError (Videos.CreateOutcome, Videos.Catalog.Publish);
  - a new video is assumed to be stored with `isPublished` set to true;
  - password hashing and token signing hide behind the opaque parameters.
- `$set` with a field that was not sent (video.controller.js:256-260, user.controller.js:295-298) leaves that field unchanged. This follows Mongoose 7 and later, which drop undefined keys from updates.
- Accounts.UserCollection.Login: when several users match `$or: [{ username }, { email }]`, the model picks any one of them. Which one `findOne` returns depends on the database.
- Accounts.UserCollection.Login: the username is compared as sent, without lowercasing, while registration stores it lowercased.
- Accounts.UserCollection.Register: the conflict check also compares the raw username, so a differently cased name passes it. The create then fails on the unique index, a ServerError rather than a Conflict.
- Listing.Filter: `$regex` is read as a literal substring, with ASCII lowercasing for the "i" option. Regex metacharacters and Unicode case folding are left out.
- Listing.SortBy: `$sort` on the request's `sortBy` field is a key function on videos:
  - ties keep the collection's natural order;
  - MongoDB does not promise that order for ties;
  - an absent `sortBy` is left out.
- Listing.ListVideos:
  - `parseInt` is taken to have produced an integer;
  - a page or limit that parses to NaN is left out;
  - a negative skip or a limit below 1 is a ServerError, because the aggregation refuses such `$skip` and `$limit` values;
  - the count and the page are taken from the same snapshot of the collection.
- Accounts.UserCollection.Refresh:
  - refresh is modelled as accept or reject;
  - the refused cases inside the `try` are ServerError, because `ApiError(...)` is called there without `new` (user.controller.js:254);
  - the response's token values are left out: `newRefreshToken` is destructured from a result that has no such key (user.controller.js:240), so the response carries no refresh token.
- The `"-reffreshToken"` typo in login's projection (user.controller.js:162) is left out. It only shapes the response.
- Accounts.UserCollection.IssueTokens:
  - `findOne(userId)` is taken to find the user;
  - `user.save` is not awaited (user.controller.js:18), and the model treats the store as completed before the handler continues.
- Concurrency is not modelled. Read-modify-write races on a user's watch history, or on the catalog, are out of scope.
- Media.MediaStore.Upload: the local file is not modelled. After a failed upload the model records only that the call throws; the file removal that `fs.unlink` was meant to do is left out.
- Uploads that succeed before a later check fails are never released. The model shows this only as an `Uploaded` entry without a matching `Released` in the log.
- Media.MediaStore.Release: `deleteFromCloudinary` is imported by both controllers, but `cloudinary.js` does not export it. A release is therefore an opaque logged call, and the module-loading failure this implies is not modelled.
- Videos.Catalog.Publish: `duration.toFixed(2)` (video.controller.js:150) is floating-point rounding, and the duration is stored as returned.
- Videos.Catalog.Publish and Accounts.UserCollection.Register take a `multipart` flag: whether the upload middleware (multer `upload.fields`, user.routes.js:9-18, video.routes.js:20-29) ran and set `req.files`. A field is absent when its path is `None`.
- History.IndexOf, History.ViewKeepsUnique and Videos.Catalog.GetVideoById: ids are compared as values. The source compares the stored id's lowercase hex string with the request's `videoId` as spelled (video.controller.js:190), while `findById` also accepts uppercase hex (video.controller.js:181). A request that spells the id in uppercase therefore appends a second entry for a video already in the history; the model does not capture that, and its uniqueness result holds only for requests that spell ids in lowercase.
- Text.Lower: only ASCII letters are lowercased, while JavaScript's `toLowerCase` also folds non-ASCII letters. This affects the stored username in Accounts.UserCollection.Register (user.controller.js:94), the lookup in Accounts.UserCollection.ChannelProfileOf (user.controller.js:391) and the owner lookup in Listing.GetAllVideos (video.controller.js:38).
- Malformed object ids (cast errors) are left out. Ids are natural numbers here.
- `togglePublishStatus` (video.controller.js:305-307) has an empty body and is not modelled.
- These handlers fall outside the modelled core and are not modelled:
  - `getWatchHistory` (a `$lookup` join whose order the database decides);
  - `updateUserAvatar`;
  - `updateUserCoverImage`;
  - `getCurrentUser`.
- Accounts.UserCollection.ChangePassword: `newPassword` is always a string. A missing new password is left out.

## Findings

| source | as written | input that shows it | evidently intended | confidence | as-written member | corrected member |
|---|---|---|---|---|---|---|
| src/controllers/user.controller.js:418-424 | `isSubscribed` tests whether the caller is among `$subscribedTo.subscriber`. Those are the channel's own outgoing subscriptions, whose subscriber is always the channel itself | subscriptions = [(subscriber 2, channel 1)], channel 1, caller 2: as written false | `$subscribers.subscriber`: the caller subscribes to the channel, so true | high, not executed | Channel.IsSubscribedAsWritten (Channel.AsWrittenOnlySeesSelf, Channel.AsWrittenMissesSubscriber) | Channel.IsSubscribed (Channel.IsSubscribedIffSubscriptionExists), used by Accounts.UserCollection.ChannelProfileOf |
