# Chirp post service, modelled in Dafny

Chirp is a small social-posting application: signed-in users post short
emoji-only messages, and everyone reads a global feed. Its server logic is the
post router (`src/server/api/routers/post.ts`) and the user projection it
shares with the profile router (`src/server/helpers/filterUser4Client.ts`).
This project models that logic:

- `UserProjection` — `filterUser4Client`, which reduces an identity-provider
  user record to `{id, username, profileImageUrl}`. `post.ts` keeps a private,
  field-for-field identical copy (`post.ts:17-23`); both are modelled by the
  one function `FilterUser4Client`.
- `PostData` — the post record and the input schema of `create`
  (`string().emoji(...).min(1).max(280)`), as a function listing the issues
  the schema reports.
- `PostFeed` — the `getAll` query: fetch the newest 100 posts, ask the user
  directory once for their authors (limit 100), and pair every post with the
  first returned user whose id is the post's author id, or with no author.
  The post store and the directory are parameters: functions from the exact
  request sent (`take: 100`, newest first; the author id list, `limit: 100`)
  to the answer.
- `PostCreate` — the `create` mutation as a class `PostRouter` holding the
  post table, the history of calls the rate limiter received, and a ghost
  trace of every external effect in order. The limiter is an oracle `allow`
  that decides a call given the configured policy (3 per minute, sliding) and
  the history; the emoji check is an uninterpreted predicate `isEmoji`.
  The class invariant says that every stored post passed the schema, that
  post ids are distinct, and that every insert in the trace comes right after
  an allowed limiter call keyed by that post's author.

Facts about the code that the model keeps:

- Content length is JavaScript's `length`, which counts UTF-16 code units.
  An emoji outside the Basic Multilingual Plane counts as two. Content is
  therefore a sequence of `CodeUnit`.
- The schema library runs every string check and reports each failure, the
  emoji rule first. Empty content is reported as too small, together with
  the emoji issue when the emoji check also fails.
- `getAll` sends the author id of every post, repeats included, even for an
  empty page. With an empty page the result is empty whatever the directory
  answers (`GetAllQueriesEveryAuthor`).
- The limiter is asked at the request's time `now`. The database stamps the
  post's `createdAt` from its own clock, at insert. The two values are
  unrelated in the model.
- `post.ts` defines only `getAll` and `create`, although
  `src/pages/post/[id].tsx:17,34` calls `post.getById`. No `getById` is
  modelled.

## Model

| member | source | states |
|---|---|---|
| `UserProjection.FilterUser4Client` | src/server/helpers/filterUser4Client.ts:2-8 | total; the view's `id`, `username` and `profileImageUrl` are the user's, unchanged (the copy at post.ts:17-23 is the same expression) |
| `UserProjection.ProjectionHidesPrivateFields` | src/server/helpers/filterUser4Client.ts:3-7 | two users have equal views iff they agree on the three public fields; changing any private field leaves the view unchanged |
| `PostData.Validate` | src/server/api/routers/post.ts:50-52 | no issue iff 1 <= length <= 280 and the emoji check holds; each rule's issue is reported iff that rule fails, and the list holds only those issues, each once; the emoji issue, with its message, comes first |
| `PostFeed.DirectoryQuery` | src/server/api/routers/post.ts:33-36 | the directory request has limit 100 and lists the author id of each page post at that post's position, so every author of the page is requested |
| `PostFeed.ProjectAll` | src/server/api/routers/post.ts:32-37 | one view per directory user, same order, each the projection of the user at that position and carrying that user's id |
| `PostFeed.FindAuthor` | src/server/api/routers/post.ts:43 | `find` semantics: absent iff no view has the id; otherwise the view at the first position whose id matches |
| `PostFeed.FindAuthorIsFirstMatch` | src/server/api/routers/post.ts:43 | `FindAuthor` equals the head of the in-order list of all matching views, or absent when that list is empty |
| `PostFeed.Enrich` | src/server/api/routers/post.ts:41-44 | same length and order as the posts, each entry's post unchanged; author absent iff no view has the post's author id, else the first such view |
| `PostFeed.GetAll` | src/server/api/routers/post.ts:26-48 | one entry per post of the store's answer to the query (take 100, newest first), in that order, with the post unchanged |
| `PostFeed.GetAllAuthor` | src/server/api/routers/post.ts:32-44 | an entry's author is absent iff no user of the directory's answer has the post's author id, else it is the projection of the first such user |
| `PostFeed.GetAllPage` | src/server/api/routers/post.ts:27-30 | when the store honours the query, `getAll` returns at most 100 entries with `createdAt` non-increasing |
| `PostFeed.GetAllQueriesEveryAuthor` | src/server/api/routers/post.ts:32-36 | the single directory request has limit 100 and covers every author of the page; an empty page gives an empty feed |
| `PostCreate.PostRouter.constructor` | src/server/api/routers/post.ts:10-15 | empty post table and limiter history; the limiter policy is 3 requests per 60 000 ms |
| `PostCreate.PostRouter.Limit` | src/server/api/routers/post.ts:55 | the limiter gets exactly one call, keyed by the identifier, appended to its history; the verdict is the oracle's on the prior history |
| `PostCreate.PostRouter.Insert` | src/server/api/routers/post.ts:60-65 | exactly one post is appended, with the given author and content, a fresh id and the database's `createdAt`; earlier posts untouched; only reached right after an allowed limiter call keyed by the author, and the invariant is kept |
| `PostCreate.PostRouter.Create` | src/server/api/routers/post.ts:50-69 | rejected content fails with the schema's issues and changes nothing, no limiter call included; valid content makes one limiter call keyed by the caller, before any write; a refusal fails with TOO_MANY_REQUESTS and leaves the posts unchanged; otherwise exactly one post by the caller with the given content, stamped with the database's `createdAt`, is appended and returned |

## Left out

- The authentication middleware behind `privateProcedure` lives in `src/server/api/trpc.ts`, which is not part of this model. `Create` starts from an authenticated caller id.
- The sliding-window algorithm of the external rate-limit service is not modelled. The service is an oracle over the call history, and the 3-per-minute policy is only passed to it.
- The emoji pattern of the schema library is an uninterpreted predicate.
- `GetAll` does not read the table that `Create` writes: the store's answer to the page query, like the directory's answer, is a free function given to `GetAll`. `GetAllPage` assumes only that this answer has at most 100 posts, newest first. That they are the table's newest posts, with no newer post left out, is neither assumed nor derived.
- Post ids come from a counter in the model. The database generates opaque string ids.
- The limiter's time (`now`) and the post's `createdAt` come from unrelated clocks. Both are free parameters of `Create`, so the model derives no window-based fact about `createdAt` from the limiter.
- Failures of the rate limiter, the store or the directory (an unreachable Redis, network errors, exceptions) are not modelled. `allow` is a total verdict, so the model does not show a create that throws at the limiter call, nor the quota consumed by a create whose insert then fails.
- Concurrent creates sharing one limiter counter are not modelled. Their atomicity belongs to the external service.
- The input-shape check that `content` is a string is not modelled. The model is typed.
- The profile router (`src/server/api/routers/profile.ts`) and all page and component rendering are not modelled.
