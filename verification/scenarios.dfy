/** The two searches on a small concrete data set: "Ana" owns e1 and participates in e2, which
    "Beto" owns. */
module Scenarios {
  import opened Wrappers
  import opened Records
  import opened Text
  import opened Seqs
  import opened SearchExperiences
  import opened SearchScreen

  const ana := User("1", "Ana")
  const beto := User("2", "Beto")
  const e1 := Experience("e1", "hike", "1", [])
  const e2 := Experience("e2", "dinner", "2", ["1"])

  /** "an" occurs in "ana" at index 0. */
  lemma AnaMatchesAn()
    ensures NameMatches("an", ana)
  {
  }

  /** "an" occurs nowhere in "beto": the first character differs at every start position. */
  lemma BetoMissesAn()
    ensures !NameMatches("an", beto)
  {
  }

  /** "zzz" occurs nowhere in "ana". */
  lemma AnaMissesZzz()
    ensures !NameMatches("ZZZ", ana)
  {
  }

  /** "zzz" occurs nowhere in "beto". */
  lemma BetoMissesZzz()
    ensures !NameMatches("ZZZ", beto)
  {
  }

  /** Query "an" selects only Ana. */
  lemma MatchingUsersAn()
    ensures MatchingUsers("an", [ana, beto]) == [ana]
  {
    AnaMatchesAn();
    BetoMissesAn();
    assert [ana, beto][1..] == [beto];
  }

  /** The union search for "an" keeps e1 by ownership and e2 by participation. */
  lemma UnionResultAn()
    ensures UnionResult("an", [ana, beto], [e1, e2]) == [e1, e2]
  {
    MatchingUsersAn();
    assert UserIds([ana]) == ["1"];
    assert Relevant(["1"], e1);
    assert Relevant(["1"], e2) by {
      assert e2.participants[0] in ["1"];
    }
    FilterAll(e => Relevant(["1"], e), [e1, e2]);
  }

  /** Of e1 and e2, only e2 lists Ana among its participants. */
  lemma AnaParticipatesInE2Only()
    ensures ParticipantExperiences("1", [e1, e2]) == [e2]
  {
    var f := e => Participates("1", e);
    assert !f(e1) && f(e2);
    assert [e1, e2][1..] == [e2];
    assert Filter(f, [e1, e2]) == Filter(f, [e2]);
    assert [e2][1..] == [];
    assert Filter(f, [e2]) == [e2] + Filter(f, []);
  }

  /** The first-match search for "an" finds Ana and keeps only e2, the one she participates in. */
  lemma FirstMatchResultAn()
    ensures FirstMatchResult("an", [ana, beto], [e1, e2]) == [e2]
  {
    AnaMatchesAn();
    assert FirstMatch("an", [ana, beto]) == Some(ana);
    AnaParticipatesInE2Only();
  }

  /** Query "an" selects only Ana; the union search keeps e1 by ownership and e2 by participation,
      while the first-match search keeps only e2, the one Ana participates in. */
  lemma QueryAn()
    ensures MatchingUsers("an", [ana, beto]) == [ana]
    ensures UnionResult("an", [ana, beto], [e1, e2]) == [e1, e2]
    ensures FirstMatchResult("an", [ana, beto], [e1, e2]) == [e2]
  {
    MatchingUsersAn();
    UnionResultAn();
    FirstMatchResultAn();
  }

  /** Query "ZZZ" matches nobody, so both searches return nothing. */
  lemma QueryNobody()
    ensures UnionResult("ZZZ", [ana, beto], [e1, e2]) == []
    ensures FirstMatchResult("ZZZ", [ana, beto], [e1, e2]) == []
  {
    AnaMissesZzz();
    BetoMissesZzz();
    NoMatchNoResult("ZZZ", [ana, beto], [e1, e2]);
  }
}
