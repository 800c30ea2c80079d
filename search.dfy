/**
 * Site search (app/api/search/route.ts): live streams, users and offline streams whose
 * title or username contains the trimmed query, case-insensitively, each list bounded.
 */
module Search {
  import opened Wrappers
  import opened Js
  import opened Http
  import opened Query
  import opened Tables

  /** The success body; a blank query answers without `query` and `offlineStreams`. */
  datatype Results = Results(
    query: Option<string>, streams: seq<StreamRow>, offlineStreams: seq<StreamRow>,
    users: seq<ProfileRow>, total: nat)

  const LiveLimit := 20
  const UserLimit := 20
  const OfflineLimit := 10

  /** `%${query.trim()}%`. */
  function SearchTerm(q: string): string
  {
    "%" + Trim(q) + "%"
  }

  /** `.ilike('title', term).eq('is_live', live)` on `streams`. */
  function TitleMatches(term: string, live: bool): StreamRow -> bool
  {
    (s: StreamRow) => ILike(s.title, term) && s.isLive == live
  }

  /** The sort key of `.order('created_at', { ascending: false })`. */
  function NewestFirst(s: StreamRow): int
  {
    -s.createdAt
  }

  /**
   * `.ilike('title', term).eq('is_live', live).order('created_at', { ascending: false }).limit(n)`:
   * the `n` newest matching streams (all when fewer), newest first.
   */
  function StreamsMatching(streams: seq<StreamRow>, term: string, live: bool, n: nat): (r: seq<StreamRow>)
    ensures FirstByKey(r, Filter(streams, TitleMatches(term, live)), NewestFirst, n)
    ensures forall s :: s in r ==> s in streams && s.isLive == live && ILike(s.title, term)
  {
    var matching := Filter(streams, TitleMatches(term, live));
    var sorted := SortBy(matching, NewestFirst);
    TakeSortBy(matching, NewestFirst, n);
    TakeSorted(sorted, NewestFirst, n);
    SameMembers(sorted, matching);
    Take(sorted, n)
  }

  /** `.ilike('username', term)` on `profiles`. */
  function UsernameMatches(term: string): ProfileRow -> bool
  {
    (p: ProfileRow) => ILike(p.username, term)
  }

  /** `.ilike('username', term).limit(20)`: the first 20 matching profiles in table order (all when fewer). */
  function UsersMatching(profiles: seq<ProfileRow>, term: string): (r: seq<ProfileRow>)
    ensures var matching := Filter(profiles, UsernameMatches(term));
      && |r| == (if |matching| <= UserLimit then |matching| else UserLimit)
      && r == matching[..|r|]
    ensures forall p :: p in r ==> p in profiles && ILike(p.username, term)
  {
    var matching := Filter(profiles, UsernameMatches(term));
    var r := Take(matching, UserLimit);
    assert forall p :: p in r ==> p in matching;
    r
  }

  /**
   * GET search for `q` (`""` when absent). The three flags say which query returns an
   * error; such a query contributes an empty list.
   */
  function Search(streams: seq<StreamRow>, profiles: seq<ProfileRow>, q: string,
                  liveFails: bool, usersFail: bool, offlineFails: bool): (r: Response<Results>)
    ensures r.status == 200 && r.payload.Body?
    ensures AllSpace(q) ==> r.payload.value == Results(None, [], [], [], 0)
    ensures var res := r.payload.value;
      && res.total == |res.streams| + |res.offlineStreams| + |res.users|
      && res.total <= LiveLimit + UserLimit + OfflineLimit
      && (forall s :: s in res.streams ==> s.isLive)
      && (forall s :: s in res.offlineStreams ==> !s.isLive)
    ensures !AllSpace(q) ==>
      var res := r.payload.value;
      var term := SearchTerm(q);
      && res.query == Some(Trim(q))
      && res.streams == (if liveFails then [] else StreamsMatching(streams, term, true, LiveLimit))
      && res.users == (if usersFail then [] else UsersMatching(profiles, term))
      && res.offlineStreams == (if offlineFails then [] else StreamsMatching(streams, term, false, OfflineLimit))
  {
    TrimEmptyIffAllSpace(q);
    if q == "" || Trim(q) == "" then Ok(Results(None, [], [], [], 0))
    else
      var term := SearchTerm(q);
      var live := if liveFails then [] else StreamsMatching(streams, term, true, LiveLimit);
      var users := if usersFail then [] else UsersMatching(profiles, term);
      var offline := if offlineFails then [] else StreamsMatching(streams, term, false, OfflineLimit);
      Ok(Results(Some(Trim(q)), live, offline, users, |live| + |users| + |offline|))
  }

  // Properties.

  /** Lower-casing keeps a term free of pattern characters. */
  lemma LowerKeepsLiteral(u: string)
    requires Literal(u)
    ensures Literal(LowerAll(u))
  {
  }

  lemma LowerTerm(u: string)
    ensures LowerAll("%" + u + "%") == "%" + LowerAll(u) + "%"
  {
  }

  /**
   * For a query without `%`, `_` or backslash, a title matches exactly when it contains
   * the trimmed query, ignoring ASCII case.
   */
  lemma MatchIsCaseInsensitiveSubstring(q: string, title: string)
    requires Literal(Trim(q))
    ensures ILike(title, SearchTerm(q)) <==> IsInfix(LowerAll(Trim(q)), LowerAll(title))
  {
    LowerTerm(Trim(q));
    LowerKeepsLiteral(Trim(q));
    ContainsPattern(LowerAll(Trim(q)), LowerAll(title));
  }

  /** A non-blank query lists every matching live stream when there are at most 20 of them. */
  lemma FewLiveMatchesAllListed(streams: seq<StreamRow>, profiles: seq<ProfileRow>, q: string,
                                usersFail: bool, offlineFails: bool)
    requires Trim(q) != ""
    requires |Filter(streams, TitleMatches(SearchTerm(q), true))| <= LiveLimit
    ensures forall s :: s in streams && s.isLive && ILike(s.title, SearchTerm(q)) ==>
      s in Search(streams, profiles, q, false, usersFail, offlineFails).payload.value.streams
  {
    assert q != "";
    StreamsMatchingComplete(streams, SearchTerm(q), true, LiveLimit);
  }

  /** When no more rows match than the limit, every matching row is listed. */
  lemma StreamsMatchingComplete(streams: seq<StreamRow>, term: string, live: bool, n: nat)
    requires |Filter(streams, TitleMatches(term, live))| <= n
    ensures forall s :: s in streams && s.isLive == live && ILike(s.title, term) ==>
      s in StreamsMatching(streams, term, live, n)
  {
    var matching := Filter(streams, TitleMatches(term, live));
    var sorted := SortBy(matching, NewestFirst);
    assert StreamsMatching(streams, term, live, n) == sorted;
    SameMembers(sorted, matching);
  }

  /** The query is not escaped: searching for `%` matches every title. */
  lemma PercentQueryMatchesAll(title: string)
    ensures ILike(title, SearchTerm("%"))
  {
    TrimPercent();
    assert SearchTerm("%") == "%%%";
    var t := LowerAll(title);
    PercentMatchesAll(t);
    assert LikeMatch("%%", t) by {
      assert "%%"[1..] == "%";
    }
    assert LowerAll("%%%") == "%%%";
    assert "%%%"[1..] == "%%";
  }

  lemma TrimPercent()
    ensures Trim("%") == "%"
  {
    var s: string := "%";
    assert |s| == 1 && s[0] == '%';
    assert !IsSpace(s[0]);
    assert TrimStart(s) == s;
    assert s[|s| - 1] == '%';
    assert TrimEnd(s) == s;
  }
}
