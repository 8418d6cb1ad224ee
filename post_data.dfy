/**
 * The post record and the input schema of the `create` procedure
 * (src/server/api/routers/post.ts): `content` must pass the emoji check and
 * have a length between 1 and 280.
 */
module PostData {

  /** One UTF-16 code unit: JavaScript strings, and their `length`, are made of these. */
  newtype CodeUnit = x: int | 0 <= x < 0x1_0000

  /** A JavaScript string as the schema sees it. */
  type Text = seq<CodeUnit>

  /** Post ids are assigned by the database; the model draws them from a counter. */
  type PostId = nat

  /** A stored post. `id` and `createdAt` are set by the database on insert. */
  datatype Post = Post(id: PostId, authorId: string, content: Text, createdAt: int)

  const MIN_CONTENT_LENGTH: nat := 1
  const MAX_CONTENT_LENGTH: nat := 280
  const EMOJI_MESSAGE: string := "Only emoji are allowed"

  /** The issues the schema can report about `content`, in the order its checks are declared. */
  datatype Issue =
    | InvalidEmoji(message: string)
    | TooSmall(minimum: nat)
    | TooBig(maximum: nat)

  /** Content the schema accepts; `isEmoji` stands for the schema library's emoji pattern. */
  predicate Accepted(content: Text, isEmoji: Text -> bool) {
    MIN_CONTENT_LENGTH <= |content| <= MAX_CONTENT_LENGTH && isEmoji(content)
  }

  /**
   * The schema `string().emoji(msg).min(1).max(280)`: every check runs and
   * each failed one adds its issue, so the result lists all violated rules,
   * the emoji rule first. The content is accepted exactly when no issue is
   * reported.
   */
  function Validate(content: Text, isEmoji: Text -> bool): (issues: seq<Issue>)
    ensures issues == [] <==> Accepted(content, isEmoji)
    ensures InvalidEmoji(EMOJI_MESSAGE) in issues <==> !isEmoji(content)
    ensures TooSmall(MIN_CONTENT_LENGTH) in issues <==> |content| < MIN_CONTENT_LENGTH
    ensures TooBig(MAX_CONTENT_LENGTH) in issues <==> |content| > MAX_CONTENT_LENGTH
    ensures |issues| <= 2
    ensures forall x :: x in issues ==>
      x in [InvalidEmoji(EMOJI_MESSAGE), TooSmall(MIN_CONTENT_LENGTH), TooBig(MAX_CONTENT_LENGTH)]
    ensures forall i, j :: 0 <= i < j < |issues| ==> issues[i] != issues[j]
    ensures !isEmoji(content) ==> issues[0] == InvalidEmoji(EMOJI_MESSAGE)
  {
    (if isEmoji(content) then [] else [InvalidEmoji(EMOJI_MESSAGE)])
    + (if |content| < MIN_CONTENT_LENGTH then [TooSmall(MIN_CONTENT_LENGTH)] else [])
    + (if |content| > MAX_CONTENT_LENGTH then [TooBig(MAX_CONTENT_LENGTH)] else [])
  }
}
