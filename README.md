# commerce-blog core, modelled in Dafny

This project models the request-handling core of the commerce-blog backend, a NestJS
service over TypeORM. The backend serves posts, likes on posts, and threaded comments.
The model covers:

- **The dynamic query builder** (`applyQueryFilters`, `applyOrderByFilters`). A map from
  field to value becomes a chain of `where` / `andWhere` / `orderBy` calls on a query
  builder. The builder is a class that records the calls it receives. Both functions are
  methods with loops, proved against left-recursive specification functions.
- **The post, like and comment services.** They run over an in-memory `Database` class.
  It holds the posts and comments tables as maps, the likes as a set, and every write
  issued, in order. Each service method states its full new state and keeps two sets of
  invariants:
  - what the schema guarantees: non-empty ids, every like and comment points at a stored
    post, every reply points at a stored comment;
  - what the services maintain: `likes_count`, `comments_count` and `replies_count` equal
    the rows they count, and a reply stays on its parent's post.
- **The ownership checks and the counter updates** (`updateCounts`,
  `updatePostCommentRepliesCount`). A decrement at zero is skipped and writes nothing.
- **`DataBaseInterceptor`**: how a caught error becomes an HTTP status, a message and a
  detail.
- **`AuthGuard`**: reading the token from an `Authorization: Bearer <token>` header
  (section 2.1 of RFC 6750, but with the scheme name matched exactly), and deciding
  whether a request passes.
- **The shared zod schemas**: trimming, the sort directive, the CPF and phone masks, the
  enum schemas, the optional (nullable) wrapper, and lower-casing.
- **The password rules of `User.create` / `User.update`**, and their copies in
  `UserDomainService`.

Calls the model cannot see are parameters: JWT verification, password hashing and password
checking. Generated ids are parameters too. Concurrent `Promise.all` branches run one after
the other, in the order they are listed.

Modules, one per file: `Common` (Option, Result, HttpError, Maybe), `Text` (string
helpers), `QueryFilters`, `Store`, `Posts`, `PostLikes`, `PostComments`,
`DatabaseInterceptor`, `AuthGuards`, `Schemas`, `Users`.

## Model

| member | source | states |
|---|---|---|
| QueryFilters.ApplyQueryFilters | src/utils/apply-query-filters.utils.ts:10-54 | Empty filters return undefined and issue no call. Otherwise the builder receives exactly the calls of `RunFilters`, and the function throws `Invalid filter type provided for filter: <field>` exactly when the run failed. |
| QueryFilters.RunFiltersCharacterized | src/utils/apply-query-filters.utils.ts:25-51 | The k-th emitted clause is built from the k-th non-nullish entry before the first untyped field, with parameter `<field>_<k>`. The run fails exactly when such an untyped field exists. |
| QueryFilters.FilterFailureSticks | src/utils/apply-query-filters.utils.ts:37-41 | Once an untyped field has thrown, later entries change nothing. |
| QueryFilters.AllNullishEmitsNothing | src/utils/apply-query-filters.utils.ts:29 | Null and undefined values are skipped: a run over only such values emits nothing and does not fail. |
| QueryFilters.WellTypedRun | src/utils/apply-query-filters.utils.ts:43-50 | When every non-nullish field has an operator, the run succeeds with one clause per non-nullish entry. The first is a `where` and every later one an `andWhere`. |
| QueryFilters.RunParamNamesDistinct | src/utils/apply-query-filters.utils.ts:33 | The clauses of one run bind pairwise different parameter names. |
| QueryFilters.ParamNamesDistinct | src/utils/apply-query-filters.utils.ts:33 | `<field>_<k>` names with different indices differ, whatever the fields are. |
| QueryFilters.LikeWrapsStrings | src/utils/apply-query-filters.utils.ts:35-47 | LIKE lower-cases the column and wraps a string value in `%…%`. Other operators compare the bare column with the raw value. |
| QueryFilters.FirstUntyped | src/utils/apply-query-filters.utils.ts:37 | Returns the first non-nullish entry without an operator; all entries before it are nullish or typed. |
| QueryFilters.NonNullishOfNullish | src/utils/apply-query-filters.utils.ts:29 | Entries that are all nullish contribute no clause. |
| QueryFilters.ApplyOrderByFilters | src/utils/apply-query-filters.utils.ts:58-74 | When every value is falsy, it returns undefined and issues no call. Otherwise the builder receives exactly the calls of `RunOrderBy`, and it throws exactly when that run failed. |
| QueryFilters.RunOrderByCharacterized | src/utils/apply-query-filters.utils.ts:65-71 | There is one `orderBy(<alias>.<column>, value)` per truthy entry before the first key without `order_by_`, in order. An error is raised exactly when such a key exists. |
| QueryFilters.OrderByFailureSticks | src/utils/apply-query-filters.utils.ts:66 | Once a bad key has thrown, later entries change nothing. |
| QueryFilters.FirstBadKey | src/utils/apply-query-filters.utils.ts:66 | Returns the first key without the `order_by_` prefix; every key before it has the prefix. |
| QueryFilters.QueryBuilder.Where | src/utils/apply-query-filters.utils.ts:43 | A `where` call is appended to the recorded calls. |
| QueryFilters.QueryBuilder.AndWhere | src/utils/apply-query-filters.utils.ts:43 | An `andWhere` call is appended to the recorded calls. |
| QueryFilters.QueryBuilder.OrderBy | src/utils/apply-query-filters.utils.ts:70 | An `orderBy` call is appended to the recorded calls. |
| Text.ReplacePrefixDrops | src/utils/apply-query-filters.utils.ts:68 | Replacing the first `order_by_` in a key that starts with it removes exactly that prefix. |
| Text.NatToStringRoundTrip | src/utils/apply-query-filters.utils.ts:33 | The decimal rendering of the clause index reads back as the same number. |
| Text.NatToStringInjective | src/utils/apply-query-filters.utils.ts:33 | Different indices render differently. |
| Store.ReplayNonNegative | src/modules/post/services/post.service.ts:155-167 | Starting from a non-negative value, no sequence of counter updates takes a counter below zero. |
| Store.ReplayWrites | src/modules/post/services/post.service.ts:160-166 | Each update issues at most one write. Increments alone add their number and write every time. |
| Store.IncrementThenDecrement | src/modules/post/services/post.service.ts:160-166 | From any non-negative value, an increment then a decrement restores the value and issues two writes. |
| Store.Recount | src/modules/post/services/post.service.ts:160-162 | One update changes only the named counter, skipping a decrement at zero. |
| Store.CounterWrite | src/modules/post/services/post.service.ts:160-166 | `updateCounts` writes exactly when the update is not a decrement at zero. |
| Store.BumpParent | src/modules/post-comment/services/post-comment.service.ts:93-104 | Only the parent's `replies_count` changes, by one step. The keys and every other row are kept. |
| Store.RepliesWrite | src/modules/post-comment/services/post-comment.service.ts:97-103 | The write happens exactly when a stored parent exists and the update is not a decrement at zero. |
| Store.WithoutComments | src/lib/database/migrations/1730468452297-post-comments.ts:93-96 | Deleted comments disappear, and the replies left behind get a null `parent_id` (ON DELETE SET NULL). |
| Store.OwnerId | src/modules/post/services/post.service.ts:54 | The row's own owner column when it is truthy, otherwise the joined relation's id. |
| Store.CheckOwner | src/modules/post-comment/services/post-comment.service.ts:27-36 | Passes exactly when the resolved owner is the logged-in user. Otherwise Forbidden with the given message, or a TypeError when no owner is available. |
| Store.OwnerSourcesAgree | src/modules/post/services/post.service.ts:53-59 | An owner column and a joined owner with the same id decide alike. |
| Store.LikesOfInsert | src/lib/database/migrations/1730404036419-post-likes.ts:52-55 | A new like adds one to its own post's like set and to no other. |
| Store.LikesOfRemove | src/lib/database/migrations/1730404036419-post-likes.ts:52-55 | Removing a like takes one from its own post's like set and from no other. |
| Store.CommentsOfInsert | src/lib/database/migrations/1730468452297-post-comments.ts:83-86 | A new comment adds one to its own post's comments. |
| Store.RepliesOfInsert | src/lib/database/migrations/1730468452297-post-comments.ts:93-96 | A new reply adds one to its parent's replies. |
| Store.CommentsOfReplace | src/modules/post-comment/services/post-comment.service.ts:116-119 | Editing a comment's counter or content keeps every post's comments and every comment's replies. |
| Store.CommentsOfRemove | src/lib/database/migrations/1730468452297-post-comments.ts:83-86 | Deleting a comment takes one from its own post's comments. |
| Store.RepliesOfRemove | src/lib/database/migrations/1730468452297-post-comments.ts:93-96 | Deleting a comment takes it off its parent's replies. |
| Store.PostRecord.WithCounter | src/modules/post/entities/post.entity.ts:38-42 | Sets one counter and keeps the ids. |
| Store.PostEntity.constructor | src/modules/post/entities/post.entity.ts:38-42 | A loaded post entity mirrors its row. |
| Store.CommentEntity.constructor | src/modules/post-comment/repositories/post-comment.repository.ts:74-82 | A loaded comment entity mirrors its row. |
| Store.Database.constructor | src/lib/database/migrations/1730468452297-post-comments.ts:15-44 | Starts with empty tables and no writes. |
| Store.Database.FindPost | src/modules/post/services/post.service.ts:109-119 | Finds a post exactly when its id is stored; the entity mirrors the row. |
| Store.Database.FindComment | src/modules/post-comment/services/post-comment.service.ts:64-69 | Finds a comment exactly when its id is stored; the entity mirrors the row. |
| Store.Database.LoadPost | src/modules/post-comment/services/post-comment.service.ts:142-146 | Loads a post that the foreign key guarantees exists. |
| Store.Database.LoadComment | src/modules/post-comment/services/post-comment.service.ts:132-137 | Loads a parent comment that the foreign key guarantees exists. |
| Store.Database.UpdatePostCounter | src/modules/post/services/post.service.ts:164-166 | Writes one counter of a stored row, logs the write, and changes nothing else. |
| Store.Database.UpdatePostFields | src/modules/post/services/post.service.ts:174-176 | Applies the patch to a stored row, logs the write, and changes nothing else. |
| Store.Database.RemovePost | src/lib/database/migrations/1730468452297-post-comments.ts:83-86 | Removes the post and cascades to its likes and comments. |
| Store.Database.InsertComment | src/modules/post-comment/services/post-comment.service.ts:76-83 | Stores the new comment and logs the write. |
| Store.Database.UpdateRepliesCount | src/modules/post-comment/services/post-comment.service.ts:101-103 | Writes `replies_count` of a stored row and logs the write. |
| Store.Database.UpdateCommentContent | src/modules/post-comment/services/post-comment.service.ts:116-119 | Writes the content if given and logs the write. |
| Store.Database.RemoveComment | src/lib/database/migrations/1730468452297-post-comments.ts:93-96 | Removes the comment and orphans its replies. |
| Store.Database.InsertLike | src/modules/post-like/services/post-like.service.ts:80-83 | Stores the like and logs the write. |
| Store.Database.RemoveLike | src/modules/post-like/services/post-like.service.ts:88-92 | Removes the like and logs the write. |
| Posts.PostService.constructor | src/modules/post/services/post.service.ts:34-39 | Binds the service to its database. |
| Posts.PostService.GetPostById | src/modules/post/services/post.service.ts:88-122 | NotFound (`Post não encotrado`) exactly when the id is not stored. Otherwise returns the row, flagged as liked exactly when the viewer's like exists. |
| Posts.PostService.UpdateCounts | src/modules/post/services/post.service.ts:155-167 | The entity's named counter takes one step and the others keep their values. The row is written exactly when this is not a decrement at zero. |
| Posts.PostService.UpdatePost | src/modules/post/services/post.service.ts:169-177 | NotFound, or Forbidden for a non-author, with no change. Otherwise exactly one patch write. All invariants are kept. |
| Posts.PostService.DeletePost | src/modules/post/services/post.service.ts:179-185 | NotFound, or Forbidden for a non-author, with no change. Otherwise the post, its likes and its comments go. All invariants and counters are kept. |
| Posts.PostRemovalKeepsSurvivors | src/lib/database/migrations/1730468452297-post-comments.ts:83-96 | Comments that survive a post's removal keep their parents. |
| Posts.PostRemovalKeepsIntegrity | src/lib/database/migrations/1730468452297-post-comments.ts:83-96 | The cascade keeps the schema's guarantees and the thread invariant. |
| Posts.PostRemovalKeepsCounters | src/modules/post/services/post.service.ts:179-185 | Every remaining counter still equals what it counts. |
| Posts.Dedup | src/modules/post/services/post.service.ts:130 | The ids without repeats, same membership, no longer than the input. |
| Posts.AddIsLikedByCurrentUserToPost | src/modules/post/services/post.service.ts:124-144 | An empty page does no lookup. Otherwise the posts keep their order, each is flagged exactly when the viewer likes it, and the lookup uses distinct ids. |
| Posts.KeysOnSize | src/modules/post/services/post.service.ts:130-134 | A user's possible like keys on n posts number at most n. |
| Posts.LookupFitsTake | src/modules/post/services/post.service.ts:131-134 | The viewer's likes on the looked-up posts never exceed the number of ids. |
| PostLikes.LikeKeepsInvariants | src/modules/post-like/services/post-like.service.ts:80-83 | A new like plus a counter increment keeps the schema guarantees and the like counts. |
| PostLikes.UnlikeKeepsInvariants | src/modules/post-like/services/post-like.service.ts:103-106 | Removing a like plus a counter decrement keeps the schema guarantees and the like counts. |
| PostLikes.PostLikeService.constructor | src/modules/post-like/services/post-like.service.ts:20-25 | Shares the post service's database. |
| PostLikes.PostLikeService.LikePost | src/modules/post-like/services/post-like.service.ts:61-86 | Errors, checked in order: Forbidden `Já gostou do post`, then NotFound, then Forbidden for the author's own post; each leaves the state unchanged. Otherwise the like is inserted and `likes_count` goes up by one with two writes. The invariants are kept. |
| PostLikes.PostLikeService.DeleteLike | src/modules/post-like/services/post-like.service.ts:88-92 | Only the like's own user removes it. Anyone else gets Forbidden `Proíbido` with no change. |
| PostLikes.PostLikeService.RemoveLike | src/modules/post-like/services/post-like.service.ts:94-109 | Forbidden when the user has not liked the post. Otherwise the like is removed and the counter is decremented. The invariants are kept. |
| PostComments.RequestedParent | src/modules/post-comment/services/post-comment.service.ts:66-68 | A parent is looked up exactly when `parent_id` is truthy. |
| PostComments.CommentInsertKeepsIntegrity | src/modules/post-comment/services/post-comment.service.ts:75-88 | Saving a comment under a parent on the same post keeps the schema guarantees and threads. |
| PostComments.CommentInsertKeepsCommentCounts | src/modules/post-comment/services/post-comment.service.ts:84 | Counting the new comment on its post keeps every `comments_count` right. |
| PostComments.CommentInsertKeepsReplyCounts | src/modules/post-comment/services/post-comment.service.ts:85-87 | Counting the new reply on its parent keeps every `replies_count` right. |
| PostComments.CommentInsertKeepsInvariants | src/modules/post-comment/services/post-comment.service.ts:60-91 | The create transition keeps every invariant. |
| PostComments.CommentRemovalKeepsIntegrity | src/modules/post-comment/services/post-comment.service.ts:140-147 | Removing a comment and orphaning its replies keeps the schema guarantees and threads. |
| PostComments.CommentRemovalKeepsCommentCounts | src/modules/post-comment/services/post-comment.service.ts:142-146 | The comment's post counts at least one beforehand, and the decrement keeps every `comments_count` right. |
| PostComments.CommentRemovalKeepsReplyCounts | src/modules/post-comment/services/post-comment.service.ts:132-138 | The parent counts at least one beforehand, and the decrement keeps every `replies_count` right. |
| PostComments.CommentRemovalKeepsInvariants | src/modules/post-comment/services/post-comment.service.ts:122-150 | The delete transition keeps every invariant, and the floor at zero is never reached. |
| PostComments.ContentEditKeepsInvariants | src/modules/post-comment/services/post-comment.service.ts:106-120 | Editing the content changes no link and no count. |
| PostComments.PostCommentService.constructor | src/modules/post-comment/services/post-comment.service.ts:20-25 | Shares the post service's database. |
| PostComments.PostCommentService.UpdatePostCommentRepliesCount | src/modules/post-comment/services/post-comment.service.ts:93-104 | `replies_count` takes one step. The row is written exactly when this is not a decrement at zero. |
| PostComments.PostCommentService.CreatePostComment | src/modules/post-comment/services/post-comment.service.ts:60-91 | Errors, each with no change: NotFound for a missing post, NotFound for a missing parent, Forbidden when the parent is on another post. Otherwise the comment is saved and `comments_count` and the parent's `replies_count` go up. The invariants are kept. |
| PostComments.PostCommentService.UpdatePostComment | src/modules/post-comment/services/post-comment.service.ts:106-120 | NotFound, or Forbidden for someone else's comment, with no change. Otherwise exactly one content write. |
| PostComments.PostCommentService.DeletePostComment | src/modules/post-comment/services/post-comment.service.ts:122-150 | NotFound, or Forbidden for someone else's comment, with no change. Otherwise the parent is decremented, the comment is removed and the post is decremented, in that order. The invariants are kept. |
| PostComments.PostCommentService.SaveComment | src/modules/post-comment/services/post-comment.service.ts:75-88 | The new row is stored, the post's `comments_count` goes up by one, and the parent's `replies_count` goes up by one when there is a parent. The writes are issued in that order, and likes are untouched. |
| PostComments.PostCommentService.UncountOnParent | src/modules/post-comment/services/post-comment.service.ts:132-138 | When the comment has a truthy `parent_id`, the parent's `replies_count` takes one decrement step. Nothing else changes. |
| PostComments.PostCommentService.DeleteRows | src/modules/post-comment/services/post-comment.service.ts:132-147 | The parent is uncounted, the row is deleted with its replies orphaned, and the post's `comments_count` takes one decrement step. The writes are issued in that order. |
| DatabaseInterceptor.FriendlyMessage | src/shared/interceptors/database.interceptor.ts:84-98 | Never empty. The result is one of three fixed sentences or the detail text itself. A missing or empty detail gives the default sentence. |
| DatabaseInterceptor.DuplicateKeyWins | src/shared/interceptors/database.interceptor.ts:89-91 | A detail mentioning "duplicate key" is reported as an existing value, even when it also mentions "foreign key". |
| DatabaseInterceptor.ForeignKeyReported | src/shared/interceptors/database.interceptor.ts:92-94 | A detail mentioning only "foreign key" is reported as an invalid reference. |
| DatabaseInterceptor.DetailPassesThrough | src/shared/interceptors/database.interceptor.ts:96-97 | Any other non-empty detail is returned word for word. |
| DatabaseInterceptor.DetailShadowsMessage | src/shared/interceptors/database.interceptor.ts:86 | When the error has a `detail` property, its `message` is never used. |
| DatabaseInterceptor.Classify | src/shared/interceptors/database.interceptor.ts:28-82 | Only non-database errors are rethrown, unchanged. Every other error gets 409 or 500, and a failed query's detail is its non-empty friendly message. |
| DatabaseInterceptor.QueryFailureByCode | src/shared/interceptors/database.interceptor.ts:36-61 | The code decides both the status and which of the three messages is used. The status agrees with the plain table `QueryFailureStatus`: 409 exactly for `ER_DUP_ENTRY`, `23503` and `ER_NO_REFERENCED_ROW`, 500 otherwise. |
| DatabaseInterceptor.ConflictIff | src/shared/interceptors/database.interceptor.ts:36-69 | 409 exactly for the two conflict codes and for a `DatabaseError`. |
| DatabaseInterceptor.DatabaseErrorAnswer | src/shared/interceptors/database.interceptor.ts:63-69 | A `DatabaseError` keeps its message, and its detail falls back to a fixed sentence. |
| DatabaseInterceptor.OrmErrorAnswer | src/shared/interceptors/database.interceptor.ts:71-77 | Any other ORM error gives 500 `Unexpected database error` with its message as the detail. |
| AuthGuards.ExtractToken | src/modules/auth/guards/auth.guard.ts:58-62 | A token is found exactly when the header starts with `Bearer `. It is the space-free run after the prefix, ended by the end of the header or a space. |
| AuthGuards.BearerSchemeFirst | src/modules/auth/guards/auth.guard.ts:59-61 | The first space-separated part is exactly `Bearer` and a second part exists, exactly when the header starts with `Bearer `. |
| AuthGuards.BearerTokenRoundTrip | src/modules/auth/guards/auth.guard.ts:58-62 | `Bearer ` plus a space-free token, followed by nothing or by a space, yields exactly that token. |
| AuthGuards.NoTokenCases | src/modules/auth/guards/auth.guard.ts:61 | No header, a bare `Bearer`, or another spelling of the scheme yields no token. |
| AuthGuards.SplitLayout | src/modules/auth/guards/auth.guard.ts:59 | The first two parts of a split sit at the start of the string, separated by the separator. |
| AuthGuards.Request.constructor | src/modules/auth/guards/auth.guard.ts:30 | A request starts without decoded claims. |
| AuthGuards.AuthGuard.constructor | src/modules/auth/guards/auth.guard.ts:17-21 | The guard holds the token verifier. |
| AuthGuards.AuthGuard.CanActivate | src/modules/auth/guards/auth.guard.ts:24-56 | With a truthy token, passes exactly when the token verifies, and the claims (or nothing) are stored on the request. Without one, passes exactly on a public route, leaves the request untouched, and otherwise answers `Unauthorized`. A rejected token answers `Invalid Token!`. |
| Text.Split | src/modules/auth/guards/auth.guard.ts:59 | At least one part, and no part contains the separator. |
| Text.JoinSplit | src/modules/auth/guards/auth.guard.ts:59 | Joining the parts of a split with the separator gives back the string. |
| Text.SplitAtFirst | src/modules/auth/guards/auth.guard.ts:59 | The first part ends at the first separator. |
| Schemas.Trim | src/shared/schemas.shared.ts:11 | The result has no surrounding whitespace and is a slice of the input with only whitespace around it. |
| Schemas.TrimPadding | src/shared/schemas.shared.ts:11 | Trimming whitespace-padded text with no whitespace at its ends gives that text back. |
| Schemas.TrimIdempotent | src/shared/schemas.shared.ts:11 | Trimming twice is trimming once. |
| Schemas.SortDirectiveIff | src/shared/schemas.shared.ts:15-17 | The hand-written check (a non-empty prefix without line terminators, a dot, and a direction) agrees with the regex in both directions. |
| Schemas.SortSchema | src/shared/schemas.shared.ts:15-17 | Accepts exactly the trimmed inputs matching `^.+\.(ASC\|DESC\|asc\|desc)$` and returns them trimmed. Otherwise fails with `Formato inválido`. |
| Schemas.SortAccepts | src/shared/schemas.shared.ts:16 | A column followed by a dot and any of the four directions is accepted. |
| Schemas.SortRejectsMixedCase | src/shared/schemas.shared.ts:16 | `.Asc` and `.Desc` are refused. |
| Schemas.FillMask | src/shared/schemas.shared.ts:69-75 | Filling a mask's `#` slots with digits gives a matching string. |
| Schemas.SlotDigitsOfFill | src/shared/schemas.shared.ts:69-75 | The digits read back from a filled mask are the digits filled in. |
| Schemas.FillSlotDigits | src/shared/schemas.shared.ts:69-75 | Every matching string is the mask filled with its own digits. |
| Schemas.MaskSchema | src/shared/schemas.shared.ts:69-75 | Accepts exactly the trimmed inputs matching the mask, with the mask's length. |
| Schemas.CpfSchema | src/shared/schemas.shared.ts:69-71 | Accepts exactly `ddd.ddd.ddd-dd` after trimming, 14 characters long. |
| Schemas.PhoneSchema | src/shared/schemas.shared.ts:73-75 | Accepts exactly `(dd) ddddd-dddd` after trimming, 15 characters long. |
| Schemas.CpfRoundTrip | src/shared/schemas.shared.ts:69-71 | Any 11 digits, formatted as a CPF and padded with whitespace, are accepted and give back the same digits. |
| Schemas.PhoneRoundTrip | src/shared/schemas.shared.ts:73-75 | Any 11 digits, formatted as a phone number and padded with whitespace, are accepted and give back the same digits. |
| Schemas.CpfMaskSlots | src/shared/schemas.shared.ts:70 | The CPF pattern has 14 characters and 11 digit slots. |
| Schemas.PhoneMaskSlots | src/shared/schemas.shared.ts:74 | The phone pattern has 15 characters and 11 digit slots. |
| Schemas.BooleanStringSchema | src/shared/schemas.shared.ts:65-67 | Accepts exactly `true` and `false`, untrimmed, as the matching boolean. |
| Schemas.GenderSchema | src/shared/schemas.shared.ts:18 | Accepts exactly `M` and `F`, untrimmed. |
| Schemas.EnumRoundTrips | src/shared/schemas.shared.ts:18 | Every boolean and gender survives being written and parsed. |
| Schemas.Optional | src/utils/create-nullable-transform.util.ts:5-14 | Null and undefined become `undefined`. Any other value goes through the inner schema, with the same verdict and message. |
| Schemas.OptionalLowerCase | src/shared/schemas.shared.ts:109-111 | Never fails. It is undefined exactly for a nullish input; otherwise the trimmed, lower-cased text. |
| Schemas.LowerCaseIdempotent | src/shared/schemas.shared.ts:110 | The output has no upper-case letters, and lower-casing again changes nothing. |
| Users.CreateUser | src/modules/user/entities/user.entity.ts:37-47 | The record is hashed from a non-empty password and null for an empty one. The plain password is never stored, and the other fields are copied. `UserDomainService.createUserEntity` (src/modules/user/services/user-domain.service.ts:25-38) builds the same record. |
| Users.UpdateUser | src/modules/user/entities/user.entity.ts:49-81 | A truthy new password needs a truthy previous password (else `required`) that checks against the stored hash (else `incorrect`). Then the record holds the new password's hash. Without a new password nothing is hashed. `UserDomainService.updateUserEntity` (src/modules/user/services/user-domain.service.ts:40-67) is the same function with `DomainMessages`: the same checks, in the same order, with Portuguese messages. |
| Users.ChangePasswordAfterCreate | src/modules/user/entities/user.entity.ts:37-81 | With a sound password check, a created user can change the password by giving the old one back. |
| Users.WrongPreviousPasswordRefused | src/modules/user/entities/user.entity.ts:66-72 | With a password check that accepts only the right password, a wrong previous password is refused as incorrect. |

## Left out

- `paginatePosts`, `paginatePostComments` and the pagination service: they are query plumbing over the filter builders modelled above, and the paging arithmetic lives in a library.
- `createPost`: a single save of a new row, with no checks.
- The ORDER BY path of `paginatePosts` (`src/modules/post/services/post.service.ts:72`): it passes `sort`, the parsed sort string, where the builder expects a map of `order_by_` keys. It is not modelled beyond `applyOrderByFilters` itself.
- The numeric, email, URL, UUID, date and time schemas: these are library validators, and floating point is out of scope.
- Logging (the logging interceptor and the `logService` calls in the guard and the database interceptor): it has no effect on results.
- `QueryFilters.ApplyQueryFilters` and `Schemas.Optional`: `is-nullable-value.util.ts` is not part of this model. `isNullableValue` is taken to mean null or undefined, both in the filter loop and in `createNullableTransform` (src/utils/create-nullable-transform.util.ts:13).
- `QueryFilters.ApplyOrderByFilters`: TypeORM's `orderBy` replaces any earlier ordering. The model records every call rather than the final ordering.
- `Schemas.LowerCase`: `toLocaleLowerCase` is modelled for ASCII letters only. Locale rules and non-ASCII case mapping are left out.
- `Schemas.Trim`: the whitespace set is JavaScript's, restricted to the code points Dafny's `char` covers.
- `Schemas.MaskSchema`: zod's default message is modelled as an absent message, not as its text.
- `DatabaseInterceptor.Classify`: driver error codes are compared as strings. A numeric `code` property is not modelled.
- `Users.UpdateUser`: hashing is a function here, whereas the source hashes with scrypt and a random 16-byte salt (src/utils/password.utils.ts:6-13), so equal passwords get different hashes. The stored hash is a string. `validatePassword` catches every error and returns false (src/utils/password.utils.ts:28-30), so a null stored hash is answered `incorrect`. The `verify` parameter can give that answer, but the model does not force it for a missing hash.
- `Users.CreateUser`: `user_photo_url` is copied as given, although the entity shown declares no such column.
- `Users.UpdateUser`: `BadRequestError` (entity) and `BadRequestException` (domain service) are both modelled as BadRequest.
- `Store.Database.LoadComment`: `deletePostComment` reloads the parent by id. Under the `parent_id` foreign key (ON DELETE SET NULL) that parent always exists, so the model loads it without a not-found branch.
- `PostComments.PostCommentService.CreatePostComment`: requires a non-empty user id, which the guard's token always provides. When both the post and the parent are missing, the post's NotFound is reported, following source order.
- Concurrency: `Promise.all` branches run sequentially, in the order they are listed. Interleavings of concurrent requests (for example, two likes racing past the duplicate check) are not modelled.
- `post-comment.entity.ts` declares no `replies_count` column, and `base_select_fields_with_post` is not exported, though the repository imports it. The model follows the service code: comments carry a stored `replies_count`, and new comments start at 0.
- `PostComments.PostCommentService.DeletePostComment`: the comment it loads is assumed to carry `parent_id`, `commented_by_id` and `post.comments_count`. The exported list closest by name, `base_pagination_fields_with_post` (post-comment.entity.ts:98-104), has no `parent_id`. If that list were the one used, the parent's `replies_count` would never be lowered.
- `Store.IncrementThenDecrement`: from 0, an increment followed by a decrement writes twice, because the decrement starts from 1. Only a decrement at 0 is skipped.
- The floor at zero in `updateCounts` and `updatePostCommentRepliesCount` is modelled as written. Under the counter invariants it is never reached on a delete (`PostComments.CommentRemovalKeepsInvariants`).
