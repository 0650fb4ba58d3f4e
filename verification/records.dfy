/** The two kinds of record the screens fetch. The source's `_id` field is called `id` here. */
module Records {

  /** A person with a display name. */
  datatype User<Id> = User(id: Id, name: string)

  /** A record owned by one user and shared with participant users; `owner` need not be the
      id of any fetched user, and `participants` may be empty or repeat an id. */
  datatype Experience<Id> = Experience(id: Id, description: string, owner: Id, participants: seq<Id>)
}
