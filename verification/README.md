# Experience search matcher

Two React Native screens let a user type a name fragment and list the "experiences" connected to
users with that name. The experiences screen's `handleSearch` fetches users and experiences on
every search. The search screen's `handleSearch` filters the arrays it loaded once at mount. Both
then run a small, pure join-and-filter over the two collections. This project models that filter as pure Dafny
functions over immutable sequences and proves its properties.

- `components/SearchExperiences.jsx` (the **union** search). It selects every user whose
  lower-cased name contains the lower-cased query and collects their ids. It then keeps, in input
  order, every experience whose owner is one of those ids or that has a participant among them.
- `screens/SearchScreen.js` (the **first-match** search). It takes only the first user whose
  name matches, in the same way, and keeps the experiences that user participates in. Ownership
  is ignored. When no user matches, the result is empty.

Modules:

- `Wrappers` (`wrappers.dfy`): `Option`, the result of `find`.
- `Seqs` (`seqs.dfy`): generic `Filter` and `Find`, which are JavaScript's `filter` and `find`.
  `FindIndex` is the index search behind `Find`. The file also defines order-preserving subsequence
  (`IsSubsequence`) and the lemmas about these functions.
- `Text` (`text.dfy`): ASCII `Lower` (`toLowerCase`) and `Contains`, which is
  `String.prototype.includes`. `Contains` is related to an index-based definition of substring
  occurrence (`OccursAt`). `Upper` upper-cases ASCII letters only. It is not used by either screen
  and exists only to state that the query's letter case does not matter. With full Unicode
  upper-casing that property would fail: `"ß"` upper-cases to `"SS"`.
- `Records` (`records.dfy`): `User` and `Experience`, generic in the id type `Id`. The source's
  `_id` field is called `id`.
- `SearchExperiences` (`search_experiences.dfy`): the union search and its properties.
- `SearchScreen` (`search_screen.dfy`): the first-match search. It also holds the lemma that
  relates the two searches.
- `Scenarios` (`scenarios.dfy`): both searches on a two-user, two-experience example.

Notes on the model:

- The ids of the matching users are kept as the array the code builds (`UserIds`), which may
  repeat an id. Only membership is ever asked of it.
- Both screens' searches are modelled. `SearchScreen.FirstMatchWithinUnion` relates them: the
  first-match result is always a subsequence of the union result.

## Model

| member | source | states |
|---|---|---|
| Text.Lower | components/SearchExperiences.jsx:28 | the lower-cased string has the same length, contains no ASCII capital, maps each capital to its small letter (code point + 32) and keeps every other character |
| Text.LowerIdempotent | components/SearchExperiences.jsx:28 | lower-casing an already lower-cased string changes nothing |
| Text.LowerIgnoresCase | components/SearchExperiences.jsx:28 | a string and its upper-cased form lower-case to the same string |
| Text.ContainsIffOccurs | components/SearchExperiences.jsx:28 | `includes` holds exactly when the needle occurs as a contiguous slice at some index of the haystack |
| Text.Contains | components/SearchExperiences.jsx:28 | `includes` holds whenever the needle is a prefix of the haystack, so the empty needle is always contained, and never when the needle is longer than the haystack |
| Text.EmptyContained | components/SearchExperiences.jsx:28 | the empty query is contained in every name |
| Seqs.Filter | components/SearchExperiences.jsx:35-39 | `filter` keeps exactly the input elements that pass the test, is never longer than the input, and is empty exactly when no element passes |
| Seqs.FilterIsSubsequence | components/SearchExperiences.jsx:35-39 | `filter` keeps the survivors in their original relative order |
| Seqs.FilterCount | components/SearchExperiences.jsx:35-39 | every accepted element occurs in the output exactly as often as in the input, and rejected ones never do |
| Seqs.FilterMonotone | screens/SearchScreen.js:43-45 | a test that implies another on every element selects a subsequence of what the other selects |
| Seqs.Find | screens/SearchScreen.js:38-40 | `find` returns nothing exactly when no element passes, and otherwise an element that passes with no passing element before it |
| Seqs.FindIsFilterHead | screens/SearchScreen.js:38-40 | `find` returns the head of what `filter` with the same test keeps |
| SearchExperiences.NameMatches | components/SearchExperiences.jsx:28 | the empty query matches every user, and a matching query is never longer than the user's name |
| SearchExperiences.MatchingUsers | components/SearchExperiences.jsx:27-29 | the selected users are input users whose names match, every matching input user is selected, and there are at most as many as input users |
| SearchExperiences.SelectedIffSubstring | components/SearchExperiences.jsx:27-29 | an input user is selected exactly when the lower-cased query occurs at some index of its lower-cased name |
| SearchExperiences.MatchingUsersMembership | components/SearchExperiences.jsx:27-29 | a user is selected exactly when it is an input user whose name matches |
| SearchExperiences.UserIds | components/SearchExperiences.jsx:32 | the id list has one entry per selected user, position by position |
| SearchExperiences.UserIdsMembership | components/SearchExperiences.jsx:32 | an id is in the list exactly when some selected user carries it |
| SearchExperiences.RelevantIdsMembership | components/SearchExperiences.jsx:27-32 | the id list holds exactly the ids of the input users whose name matches the query |
| SearchExperiences.FilterExperiences | components/SearchExperiences.jsx:35-39 | kept experiences are input experiences with the owner or a participant among the ids; every such input experience is kept |
| SearchExperiences.UnionResult | components/SearchExperiences.jsx:27-39 | the result is never longer than the input experiences |
| SearchExperiences.UnionMembership | components/SearchExperiences.jsx:27-39 | an input experience is in the result exactly when some user whose name matches owns it or participates in it |
| SearchExperiences.EmptyQuerySelectsAll | components/SearchExperiences.jsx:27-32 | with the empty query every user is selected, so the ids are those of all users |
| SearchExperiences.NoMatchNoResult | components/SearchExperiences.jsx:27-39 | when no name matches, the id list and the result are empty |
| SearchExperiences.UnionResultIsSubsequence | components/SearchExperiences.jsx:35-39 | the result is a subsequence of the input experiences in their original order |
| SearchExperiences.UnionResultCount | components/SearchExperiences.jsx:35-39 | an experience matched by both owner and participant appears once per input occurrence, never more; an irrelevant one never appears |
| SearchExperiences.FilterExperiencesIdempotent | components/SearchExperiences.jsx:35-39 | filtering the result again with the same ids returns it unchanged |
| SearchExperiences.UnionResultCaseInsensitive | components/SearchExperiences.jsx:28 | queries with the same lower-cased form select the same users and give the same result |
| SearchExperiences.UnionResultIgnoresQueryCase | components/SearchExperiences.jsx:28 | upper-casing or lower-casing the query leaves the result unchanged |
| SearchScreen.FirstMatch | screens/SearchScreen.js:38-40 | no user is found exactly when no name matches; otherwise the found user is the lowest-index matching user, and no earlier user matches |
| SearchScreen.FirstMatchIsFirstMatchingUser | screens/SearchScreen.js:38-40 | the found user is the first of the users the union search selects for the same query |
| SearchScreen.EmptyQueryFindsFirstUser | screens/SearchScreen.js:38-40 | with the empty query and at least one user, the found user is the first user |
| SearchScreen.ParticipantIsRelevant | screens/SearchScreen.js:44 | a participant id that is among the ids makes the experience relevant to the union search (components/SearchExperiences.jsx:38) |
| SearchScreen.ParticipantExperiences | screens/SearchScreen.js:43-45 | kept experiences are input experiences listing the id among their participants, and every such input experience is kept |
| SearchScreen.FirstMatchResult | screens/SearchScreen.js:42-49 | when no name matches the result is empty; it is never longer than the input |
| SearchScreen.FirstMatchMembership | screens/SearchScreen.js:42-45 | when a user is found, an input experience is kept exactly when that user's id is among its participants, whoever owns it |
| SearchScreen.FirstMatchResultIsSubsequence | screens/SearchScreen.js:43-45 | the result is a subsequence of the input experiences in their original order |
| SearchScreen.FirstMatchWithinUnion | screens/SearchScreen.js:38-45 | for the same inputs, the result is a subsequence of the union search's result (components/SearchExperiences.jsx:27-39), so each of its experiences is also there |
| SearchScreen.FirstMatchResultCaseInsensitive | screens/SearchScreen.js:38-40 | queries with the same lower-cased form find the same user and give the same result |
| Scenarios.QueryAn | components/SearchExperiences.jsx:27-39 | users Ana (1) and Beto (2); e1 owned by 1; e2 owned by 2 with participant 1; query "an" gives [e1, e2] in the union search and [e2] in the first-match search |
| Scenarios.QueryNobody | screens/SearchScreen.js:42-49 | on the same data, query "ZZZ" matches no user and both searches return the empty sequence |

## Left out

- Fetching users and experiences (`fetchUsers`, `fetchExperiences`): the services are not part of this model. Their outputs are the `users` and `es` inputs.
- `async`/`await` sequencing, `try`/`catch`/`finally` and `console.error` logging: effects only.
- Failed fetches: the model does not distinguish them from an empty search. On the experiences screen (components/SearchExperiences.jsx:21-46), a failed fetch skips the filter, and the previous results stay on screen. On the search screen (screens/SearchScreen.js:17-18, 24-31), a failed load leaves users and experiences at their initial empty arrays. The first-match filter then runs on no users and shows the same empty list as a real no-match. A search issued before `loadData` resolves (screens/SearchScreen.js:17-18, 33) also runs on these initial empty arrays and shows the same empty list. The model covers both cases as `FirstMatchResult` on an empty `users`.
- Records: every user has a string name and every experience has a participants sequence. In the source, a malformed field throws only when it is read:
  - A user's `name` that is not a string throws when that user is compared with the query. On the experiences screen every user is compared (components/SearchExperiences.jsx:27-29). On the search screen, `find` stops at the first matching user, so later users are never read (screens/SearchScreen.js:38-40).
  - On the experiences screen, `participants` is read only when the owner is not a selected id (components/SearchExperiences.jsx:37-38). An experience whose owner matches is kept even if its `participants` is missing. Otherwise a missing or non-array `participants` throws at `some`.
  - The experiences screen catches a throw (components/SearchExperiences.jsx:42-43) and keeps its previous results. The search screen does not catch it.
  - These throw paths are not modelled.
- Records: on the search screen, a string `participants` does not throw. `includes` then runs a substring test on the string (screens/SearchScreen.js:44). The model has participants only as a sequence of ids, so this case is not modelled.
- React state (`useState`, `useEffect`, the loading flag): UI lifecycle, not logic. The search screen loads its data once at mount, while the experiences screen fetches on every search. Both reach the filter as plain inputs.
- Rendering, `FlatList` key extraction, styles and navigation (`navigation.goBack`): presentation only.
- Text.Lower: folds ASCII letters only. JavaScript's `toLowerCase` follows full Unicode case mapping, which can also change a string's length.
- Records: ids are a generic type with exact equality. JavaScript's loose typing of `_id` and the SameValueZero comparison of `includes` (for example `NaN`) are not modelled.
- Strings are sequences of Dafny `char`, not UTF-16 code units, so surrogate pairs are not modelled.
