/** The search of the search screen: take only the first user whose name contains the query,
    ignoring case, and keep the experiences that user participates in; ownership plays no role. */
module SearchScreen {
  import opened Wrappers
  import opened Records
  import opened Text
  import opened Seqs
  import opened SearchExperiences

  /** The first user, in input order, whose name matches the query, if any. */
  function FirstMatch<Id>(query: string, users: seq<User<Id>>): (r: Option<User<Id>>)
    ensures r.None? <==> forall i :: 0 <= i < |users| ==> !NameMatches(query, users[i])
    ensures r.Some? ==> exists i :: && 0 <= i < |users| && users[i] == r.value
                                    && NameMatches(query, users[i])
                                    && forall j :: 0 <= j < i ==> !NameMatches(query, users[j])
  {
    Find(u => NameMatches(query, u), users)
  }

  /** `id` is among the experience's participants. */
  predicate Participates<Id(==)>(id: Id, e: Experience<Id>) {
    id in e.participants
  }

  /** A participant id that is among `ids` makes the experience relevant to the union search. */
  lemma ParticipantIsRelevant<Id>(id: Id, ids: seq<Id>, e: Experience<Id>)
    requires id in ids && Participates(id, e)
    ensures Relevant(ids, e)
  {
    var k :| 0 <= k < |e.participants| && e.participants[k] == id;
  }

  /** The user found is the first of the users the experiences screen selects for the same query,
      and no user is found exactly when that screen selects none. */
  lemma FirstMatchIsFirstMatchingUser<Id>(query: string, users: seq<User<Id>>)
    ensures FirstMatch(query, users)
         == if MatchingUsers(query, users) == [] then None else Some(MatchingUsers(query, users)[0])
  {
    FindIsFilterHead(u => NameMatches(query, u), users);
  }

  /** The experiences whose participants include `id`, in their original order. */
  function ParticipantExperiences<Id(==)>(id: Id, es: seq<Experience<Id>>): (r: seq<Experience<Id>>)
    ensures |r| <= |es|
    ensures forall i :: 0 <= i < |r| ==> r[i] in es && id in r[i].participants
    ensures forall i :: 0 <= i < |es| && id in es[i].participants ==> es[i] in r
  {
    Filter(e => Participates(id, e), es)
  }

  /** The whole search: the experiences of the first matching user, or nothing when no user matches. */
  function FirstMatchResult<Id(==)>(query: string, users: seq<User<Id>>, es: seq<Experience<Id>>): (r: seq<Experience<Id>>)
    ensures |r| <= |es|
    ensures (forall i :: 0 <= i < |users| ==> !NameMatches(query, users[i])) ==> r == []
  {
    match FirstMatch(query, users)
    case None => []
    case Some(u) => ParticipantExperiences(u.id, es)
  }

  /** With the empty query and at least one user, the user found is the first one. */
  lemma EmptyQueryFindsFirstUser<Id>(users: seq<User<Id>>)
    requires |users| > 0
    ensures FirstMatch("", users) == Some(users[0])
  {
    EmptyContained(Lower(users[0].name));
  }

  /** When a user is found, an experience of the input is kept exactly when that user's id is
      among its participants, whoever owns it. */
  lemma FirstMatchMembership<Id>(query: string, users: seq<User<Id>>, es: seq<Experience<Id>>, e: Experience<Id>)
    requires e in es
    requires FirstMatch(query, users).Some?
    ensures e in FirstMatchResult(query, users, es) <==> FirstMatch(query, users).value.id in e.participants
  {
    var r := FirstMatchResult(query, users, es);
    if e in r {
      var i :| 0 <= i < |r| && r[i] == e;
    }
    var j :| 0 <= j < |es| && es[j] == e;
  }

  /** The result keeps the input's relative order: it is a subsequence of the experiences. */
  lemma FirstMatchResultIsSubsequence<Id>(query: string, users: seq<User<Id>>, es: seq<Experience<Id>>)
    ensures IsSubsequence(FirstMatchResult(query, users, es), es)
  {
    match FirstMatch(query, users)
    case None =>
    case Some(u) => FilterIsSubsequence(e => Participates(u.id, e), es);
  }

  /** For the same inputs, this screen's result is a subsequence of the experiences screen's
      result: every experience it shows, the union search shows too, in the same order. */
  lemma FirstMatchWithinUnion<Id>(query: string, users: seq<User<Id>>, es: seq<Experience<Id>>)
    ensures IsSubsequence(FirstMatchResult(query, users, es), UnionResult(query, users, es))
    ensures forall i :: 0 <= i < |FirstMatchResult(query, users, es)|
                    ==> FirstMatchResult(query, users, es)[i] in UnionResult(query, users, es)
  {
    var ids := UserIds(MatchingUsers(query, users));
    match FirstMatch(query, users)
    case None =>
    case Some(u) =>
      assert u in users && NameMatches(query, u);
      RelevantIdsMembership(query, users, u.id);
      forall i | 0 <= i < |es| && u.id in es[i].participants
        ensures Relevant(ids, es[i])
      {
        ParticipantIsRelevant(u.id, ids, es[i]);
      }
      FilterMonotone(e => Participates(u.id, e), e => Relevant(ids, e), es);
      SubsequenceBounds(FirstMatchResult(query, users, es), UnionResult(query, users, es));
  }

  /** The result depends on the query only through its lower-cased form. */
  lemma FirstMatchResultCaseInsensitive<Id>(q1: string, q2: string, users: seq<User<Id>>, es: seq<Experience<Id>>)
    requires Lower(q1) == Lower(q2)
    ensures FirstMatch(q1, users) == FirstMatch(q2, users)
    ensures FirstMatchResult(q1, users, es) == FirstMatchResult(q2, users, es)
  {
    FindExtensional(u => NameMatches(q1, u), u => NameMatches(q2, u), users);
  }
}
