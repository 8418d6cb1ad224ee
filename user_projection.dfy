/**
 * The projection of an identity-provider user record onto the three fields
 * the client may see (src/server/helpers/filterUser4Client.ts; post.ts keeps
 * a field-for-field identical private copy, modelled by the same function).
 */
module UserProjection {
  import opened Wrappers

  /**
   * A user record as the identity provider's directory returns it: the three
   * public fields, and a representative set of fields that must not reach the
   * client (names, e-mail addresses, the account's creation time).
   */
  datatype User = User(
    id: string,
    username: Option<string>,
    profileImageUrl: string,
    firstName: Option<string>,
    lastName: Option<string>,
    emailAddresses: seq<string>,
    createdAt: int)

  /** What the client receives about an author: nothing beyond these three fields. */
  datatype AuthorView = AuthorView(id: string, username: Option<string>, profileImageUrl: string)

  /** `filterUser4Client`: total, and each public field is copied unchanged. */
  function FilterUser4Client(user: User): (view: AuthorView)
    ensures view.id == user.id
    ensures view.username == user.username
    ensures view.profileImageUrl == user.profileImageUrl
  {
    AuthorView(user.id, user.username, user.profileImageUrl)
  }

  /**
   * Nothing but the three public fields reaches the client: two users have the
   * same projection exactly when they agree on id, username and image, so any
   * change to a private field leaves the projection as it was.
   */
  lemma ProjectionHidesPrivateFields(a: User, b: User)
    ensures FilterUser4Client(a) == FilterUser4Client(b)
      <==> a.id == b.id && a.username == b.username && a.profileImageUrl == b.profileImageUrl
    ensures FilterUser4Client(a.(firstName := b.firstName, lastName := b.lastName,
                                 emailAddresses := b.emailAddresses, createdAt := b.createdAt))
         == FilterUser4Client(a)
  {
  }
}
