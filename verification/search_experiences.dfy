/** The search of the experiences screen: select every user whose name contains the query, ignoring
    case, and keep every experience owned by or shared with one of them. */
module SearchExperiences {
  import opened Records
  import opened Text
  import opened Seqs

  /** The lower-cased name contains the lower-cased query. */
  predicate NameMatches<Id>(query: string, u: User<Id>): (b: bool)
    ensures query == "" ==> b
    ensures b ==> |query| <= |u.name|
  {
    Contains(Lower(u.name), Lower(query))
  }

  /** The users whose name matches the query, in their original order. */
  function MatchingUsers<Id>(query: string, users: seq<User<Id>>): (r: seq<User<Id>>)
    ensures |r| <= |users|
    ensures forall i :: 0 <= i < |r| ==> r[i] in users && NameMatches(query, r[i])
    ensures forall i :: 0 <= i < |users| && NameMatches(query, users[i]) ==> users[i] in r
  {
    Filter(u => NameMatches(query, u), users)
  }

  /** The ids of `us`, position by position. */
  function UserIds<Id>(us: seq<User<Id>>): (ids: seq<Id>)
    ensures |ids| == |us|
    ensures forall i :: 0 <= i < |us| ==> ids[i] == us[i].id
  {
    if |us| == 0 then [] else [us[0].id] + UserIds(us[1..])
  }

  /** The experience's owner is one of `ids`, or one of its participants is. */
  predicate Relevant<Id(==)>(ids: seq<Id>, e: Experience<Id>) {
    e.owner in ids || exists k :: 0 <= k < |e.participants| && e.participants[k] in ids
  }

  /** The experiences relevant to `ids`, in their original order. */
  function FilterExperiences<Id(==)>(ids: seq<Id>, es: seq<Experience<Id>>): (r: seq<Experience<Id>>)
    ensures |r| <= |es|
    ensures forall i :: 0 <= i < |r| ==> r[i] in es && Relevant(ids, r[i])
    ensures forall i :: 0 <= i < |es| && Relevant(ids, es[i]) ==> es[i] in r
  {
    Filter(e => Relevant(ids, e), es)
  }

  /** The whole search: the ids of the matching users, then the experiences relevant to them. */
  function UnionResult<Id(==)>(query: string, users: seq<User<Id>>, es: seq<Experience<Id>>): (r: seq<Experience<Id>>)
    ensures |r| <= |es|
  {
    FilterExperiences(UserIds(MatchingUsers(query, users)), es)
  }

  /** A user of the input is selected exactly when its lower-cased name has the lower-cased query
      as a contiguous substring. */
  lemma SelectedIffSubstring<Id>(query: string, users: seq<User<Id>>, u: User<Id>)
    requires u in users
    ensures u in MatchingUsers(query, users) <==> exists i :: OccursAt(Lower(u.name), Lower(query), i)
  {
    ContainsIffOccurs(Lower(u.name), Lower(query));
    MatchingUsersMembership(query, users, u);
    assert NameMatches(query, u) <==> Contains(Lower(u.name), Lower(query));
  }

  /** A user is in the matching users exactly when it is an input user whose name matches. */
  lemma MatchingUsersMembership<Id>(query: string, users: seq<User<Id>>, u: User<Id>)
    ensures u in MatchingUsers(query, users) <==> u in users && NameMatches(query, u)
  {
    var m := MatchingUsers(query, users);
    if u in m {
      var i :| 0 <= i < |m| && m[i] == u;
    }
    if u in users {
      var i :| 0 <= i < |users| && users[i] == u;
    }
  }

  /** An id is collected exactly when some user of `us` carries it. */
  lemma UserIdsMembership<Id>(us: seq<User<Id>>, id: Id)
    ensures id in UserIds(us) <==> exists u :: u in us && u.id == id
  {
    var ids := UserIds(us);
    if id in ids {
      var i :| 0 <= i < |ids| && ids[i] == id;
      assert us[i] in us;
    }
    if exists u :: u in us && u.id == id {
      var u :| u in us && u.id == id;
      var i :| 0 <= i < |us| && us[i] == u;
      assert ids[i] == id;
    }
  }

  /** The relevant id set holds exactly the ids of the users whose name matches the query. */
  lemma RelevantIdsMembership<Id>(query: string, users: seq<User<Id>>, id: Id)
    ensures id in UserIds(MatchingUsers(query, users))
        <==> exists u :: u in users && NameMatches(query, u) && u.id == id
  {
    var m := MatchingUsers(query, users);
    UserIdsMembership(m, id);
    forall u | u in users && NameMatches(query, u)
      ensures u in m
    {
      MatchingUsersMembership(query, users, u);
    }
    forall u | u in m
      ensures u in users && NameMatches(query, u)
    {
      MatchingUsersMembership(query, users, u);
    }
  }

  /** An experience of the input is in the result exactly when some user whose name matches the
      query owns it or participates in it. */
  lemma UnionMembership<Id>(query: string, users: seq<User<Id>>, es: seq<Experience<Id>>, e: Experience<Id>)
    requires e in es
    ensures e in UnionResult(query, users, es)
        <==> exists u :: && u in users && NameMatches(query, u)
                         && (u.id == e.owner || u.id in e.participants)
  {
    var ids := UserIds(MatchingUsers(query, users));
    var r := UnionResult(query, users, es);
    var j :| 0 <= j < |es| && es[j] == e;
    if e in r {
      var i :| 0 <= i < |r| && r[i] == e;
      assert Relevant(ids, e);
      if e.owner in ids {
        RelevantIdsMembership(query, users, e.owner);
      } else {
        var k :| 0 <= k < |e.participants| && e.participants[k] in ids;
        RelevantIdsMembership(query, users, e.participants[k]);
      }
    }
    if exists u :: && u in users && NameMatches(query, u)
                   && (u.id == e.owner || u.id in e.participants) {
      var u :| && u in users && NameMatches(query, u)
               && (u.id == e.owner || u.id in e.participants);
      RelevantIdsMembership(query, users, u.id);
      if u.id != e.owner {
        var k :| 0 <= k < |e.participants| && e.participants[k] == u.id;
      }
      assert Relevant(ids, es[j]);
    }
  }

  /** With the empty query every user is selected, so the id set is the ids of all users. */
  lemma EmptyQuerySelectsAll<Id>(users: seq<User<Id>>)
    ensures MatchingUsers("", users) == users
    ensures UserIds(MatchingUsers("", users)) == UserIds(users)
  {
    forall i | 0 <= i < |users|
      ensures NameMatches("", users[i])
    {
      EmptyContained(Lower(users[i].name));
    }
    FilterAll(u => NameMatches("", u), users);
  }

  /** When no user name matches, the id set is empty and so is the result. */
  lemma NoMatchNoResult<Id>(query: string, users: seq<User<Id>>, es: seq<Experience<Id>>)
    requires forall i :: 0 <= i < |users| ==> !NameMatches(query, users[i])
    ensures UserIds(MatchingUsers(query, users)) == []
    ensures UnionResult(query, users, es) == []
  {
    assert MatchingUsers(query, users) == [];
    forall i | 0 <= i < |es|
      ensures !Relevant([], es[i])
    {
    }
  }

  /** The result keeps the input's relative order: it is a subsequence of the experiences. */
  lemma UnionResultIsSubsequence<Id>(query: string, users: seq<User<Id>>, es: seq<Experience<Id>>)
    ensures IsSubsequence(UnionResult(query, users, es), es)
  {
    FilterIsSubsequence(e => Relevant(UserIds(MatchingUsers(query, users)), e), es);
  }

  /** A relevant experience appears in the result as many times as in the input, however many of
      its owner and participants match, and an irrelevant one not at all. */
  lemma UnionResultCount<Id>(query: string, users: seq<User<Id>>, es: seq<Experience<Id>>, e: Experience<Id>)
    ensures multiset(UnionResult(query, users, es))[e]
         == if Relevant(UserIds(MatchingUsers(query, users)), e) then multiset(es)[e] else 0
  {
    FilterCount(x => Relevant(UserIds(MatchingUsers(query, users)), x), es, e);
  }

  /** Filtering the result again with the same ids returns it unchanged. */
  lemma FilterExperiencesIdempotent<Id>(ids: seq<Id>, es: seq<Experience<Id>>)
    ensures FilterExperiences(ids, FilterExperiences(ids, es)) == FilterExperiences(ids, es)
  {
    FilterIdempotent(e => Relevant(ids, e), es);
  }

  /** The result depends on the query only through its lower-cased form. */
  lemma UnionResultCaseInsensitive<Id>(q1: string, q2: string, users: seq<User<Id>>, es: seq<Experience<Id>>)
    requires Lower(q1) == Lower(q2)
    ensures MatchingUsers(q1, users) == MatchingUsers(q2, users)
    ensures UnionResult(q1, users, es) == UnionResult(q2, users, es)
  {
    FilterExtensional(u => NameMatches(q1, u), u => NameMatches(q2, u), users);
  }

  /** Upper-casing or lower-casing the query does not change the result. */
  lemma UnionResultIgnoresQueryCase<Id>(q: string, users: seq<User<Id>>, es: seq<Experience<Id>>)
    ensures UnionResult(Upper(q), users, es) == UnionResult(q, users, es)
    ensures UnionResult(Lower(q), users, es) == UnionResult(q, users, es)
  {
    LowerIgnoresCase(q);
    LowerIdempotent(q);
    UnionResultCaseInsensitive(Upper(q), q, users, es);
    UnionResultCaseInsensitive(Lower(q), q, users, es);
  }
}
