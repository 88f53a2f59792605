/** The release matcher: it turns what a directory's file names say into
    search queries, finds releases in the Discogs database that agree with the
    directory, ranks them and settles each track's number and title. */
module Matcher {
  import opened Wrappers
  import opened Seqs
  import opened Text
  import opened Paths
  import opened StringUtils
  import opened Sorting
  import opened Records
  import opened Discogs

  // ---------------------------------------------------------------------------
  // Digit consistency of a release name with the query

  /** `CheckReleaseNameConsistency`: the digit groups of the two names, each
      list sorted, are the same list. */
  function CheckReleaseNameConsistency(releaseName: string, query: string): (r: bool)
    ensures r <==> multiset(ExtractDigitGroups(releaseName)) == multiset(ExtractDigitGroups(query))
  {
    SortedEqualIffSameElements(ExtractDigitGroups(releaseName), ExtractDigitGroups(query));
    SortStrings(ExtractDigitGroups(releaseName)) == SortStrings(ExtractDigitGroups(query))
  }

  lemma NameConsistencyReflexive(name: string)
    ensures CheckReleaseNameConsistency(name, name)
  {
  }

  lemma NameConsistencySymmetric(releaseName: string, query: string)
    ensures CheckReleaseNameConsistency(releaseName, query) == CheckReleaseNameConsistency(query, releaseName)
  {
  }

  /** Only the digits count and their order does not: "2 of 3" agrees with "3/2". */
  lemma NameConsistencyIgnoresOrder(w: string, d1: char, d2: char)
    requires w != [] && forall k :: 0 <= k < |w| ==> !IsDigit(w[k])
    requires IsDigit(d1) && IsDigit(d2)
    ensures CheckReleaseNameConsistency([d1] + w + [d2], [d2] + w + [d1])
  {
    var g1, g2 := [[d1], [d2]], [[d2], [d1]];
    DigitGroupsOfTwo(d1, w, d2);
    DigitGroupsOfTwo(d2, w, d1);
    assert multiset(g1) == multiset(g2);
  }

  lemma DigitGroupsOfTwo(d1: char, w: string, d2: char)
    requires w != [] && forall k :: 0 <= k < |w| ==> !IsDigit(w[k])
    requires IsDigit(d1) && IsDigit(d2)
    ensures ExtractDigitGroups([d1] + w + [d2]) == [[d1], [d2]]
  {
    FirstGroupIsFirstRun(w, [d2], "", IsDigit);
    assert w + [d2] + "" == w + [d2];
    FirstGroupIsFirstRun("", [d1], w + [d2], IsDigit);
    assert "" + [d1] + (w + [d2]) == [d1] + w + [d2];
  }

  /** Names that differ only in one volume digit are inconsistent. */
  lemma VolumeMismatch(w: string, d1: char, d2: char)
    requires forall k :: 0 <= k < |w| ==> !IsDigit(w[k])
    requires IsDigit(d1) && IsDigit(d2) && d1 != d2
    ensures !CheckReleaseNameConsistency(w + [d1], w + [d2])
  {
    FirstGroupIsFirstRun(w, [d1], "", IsDigit);
    FirstGroupIsFirstRun(w, [d2], "", IsDigit);
    assert w + [d1] + "" == w + [d1] && w + [d2] + "" == w + [d2];
    assert [d1] in multiset(ExtractDigitGroups(w + [d1]));
    assert [d1] !in multiset(ExtractDigitGroups(w + [d2]));
  }

  /** "Compilation Vol 2" is not a match for the query "Compilation Vol 3". */
  lemma CompilationVolumes(releaseName: string, query: string)
    requires releaseName == "Compilation Vol 2" && query == "Compilation Vol 3"
    ensures !CheckReleaseNameConsistency(releaseName, query)
  {
    var w := "Compilation Vol ";
    assert releaseName == w + ['2'] && query == w + ['3'];
    VolumeMismatch(w, '2', '3');
  }

  // ---------------------------------------------------------------------------
  // Conformity of a release's tracklist with the directory

  predicate IsLongToken(t: string) { |t| > 3 }

  /** The tokens of `s` longer than three characters. */
  function LongTokens(s: string): seq<string>
  {
    Filter(SplitToTokens(s), IsLongToken)
  }

  /** The long tokens of each string in turn, duplicates kept. */
  function LongTokensOfAll(ss: seq<string>): (tokens: seq<string>)
    ensures forall t :: t in tokens <==> exists k :: 0 <= k < |ss| && t in LongTokens(ss[k])
  {
    if ss == [] then []
    else
      var rest := LongTokensOfAll(ss[1..]);
      assert forall k :: 1 <= k < |ss| ==> ss[k] == ss[1..][k - 1];
      assert forall t :: t in rest <==> exists k :: 1 <= k < |ss| && t in LongTokens(ss[k]) by {
        forall t | t in rest ensures exists k :: 1 <= k < |ss| && t in LongTokens(ss[k]) {
          var j :| 0 <= j < |ss[1..]| && t in LongTokens(ss[1..][j]);
          assert t in LongTokens(ss[j + 1]);
        }
      }
      LongTokens(ss[0]) + rest
  }

  function MeaningfulTokensOf(tracks: seq<TrackInfo>): seq<string>
  {
    seq(|tracks|, k requires 0 <= k < |tracks| => tracks[k].meaningfulTrackTitleTokens)
  }

  function TitlesOf(tracklist: seq<Track>): seq<string>
  {
    seq(|tracklist|, k requires 0 <= k < |tracklist| => tracklist[k].title)
  }

  /** The long tokens of the directory's meaningful track-title tokens. */
  function DirTokens(dirInfo: TrackDirInfo): seq<string>
  {
    LongTokensOfAll(MeaningfulTokensOf(dirInfo.tracks))
  }

  /** How many distinct long tokens of the tracklist's titles are also long
      tokens of the directory. */
  function Conformity(tracklist: seq<Track>, dirTokens: seq<string>): (c: nat)
    ensures c <= |dirTokens|
  {
    var common := Elements(LongTokensOfAll(TitlesOf(tracklist))) * Elements(dirTokens);
    ElementsBound(dirTokens);
    assert common <= Elements(dirTokens);
    SubsetCardinality(common, Elements(dirTokens));
    |common|
  }

  lemma ElementsBound<T>(s: seq<T>)
    ensures |Elements(s)| <= |s|
  {
    if s != [] {
      ElementsBound(s[1..]);
      assert Elements(s) == {s[0]} + Elements(s[1..]);
    }
  }

  lemma SubsetCardinality<T>(a: set<T>, b: set<T>)
    requires a <= b
    ensures |a| <= |b|
  {
    if a != {} {
      var x :| x in a;
      SubsetCardinality(a - {x}, b - {x});
    }
  }

  /** A release conforms when its conformity reaches a third of the number of
      directory tokens, rounded down. */
  function Conforming(dirTokens: seq<string>): Release -> bool
  {
    (release: Release) => Conformity(release.tracklist, dirTokens) >= |dirTokens| / 3
  }

  /** `CheckReleasesConsistency`: the conforming releases, in order. */
  function CheckReleasesConsistency(dirInfo: TrackDirInfo, releases: seq<Release>): (r: seq<Release>)
    ensures |r| <= |releases|
    ensures forall x :: x in r <==> x in releases && Conformity(x.tracklist, DirTokens(dirInfo)) >= |DirTokens(dirInfo)| / 3
  {
    if releases == [] then releases
    else
      var kept := Filter(releases, Conforming(DirTokens(dirInfo)));
      forall x ensures x in kept <==> x in releases && Conforming(DirTokens(dirInfo))(x) {
        FilterMembership(releases, Conforming(DirTokens(dirInfo)), x);
      }
      kept
  }

  /** With fewer than three directory tokens every release conforms. */
  lemma FewTokensKeepAll(dirInfo: TrackDirInfo, releases: seq<Release>)
    requires |DirTokens(dirInfo)| < 3
    ensures CheckReleasesConsistency(dirInfo, releases) == releases
  {
    if releases != [] {
      FilterAll(releases, Conforming(DirTokens(dirInfo)));
    }
  }

  /** The kept releases keep their relative order: keeping a list with more
      releases after it keeps the same releases first. */
  lemma ConsistencyKeepsOrder(dirInfo: TrackDirInfo, s: seq<Release>, t: seq<Release>)
    ensures CheckReleasesConsistency(dirInfo, s + t)
         == CheckReleasesConsistency(dirInfo, s) + CheckReleasesConsistency(dirInfo, t)
  {
    var p := Conforming(DirTokens(dirInfo));
    FilterAppend(s, t, p);
    if s == [] {
      assert s + t == t;
    } else if t == [] {
      assert s + t == s;
    }
  }

  // ---------------------------------------------------------------------------
  // Finding the releases for one query

  /** How many search results are fetched at most. */
  const MaxFetched := 5

  /** A search result worth fetching: a release of its own (not a master) whose
      title agrees with the query on digits. */
  function IsGoodBrief(query: string): SearchResult -> bool
  {
    (brief: SearchResult) => brief.id != brief.masterId && CheckReleaseNameConsistency(brief.title, query)
  }

  /** The first five good search results, in search order. */
  function GoodBriefReleases(results: seq<SearchResult>, query: string): (briefs: seq<SearchResult>)
    ensures |briefs| <= MaxFetched
    ensures forall b :: b in briefs ==> b in results && b.id != b.masterId && CheckReleaseNameConsistency(b.title, query)
    ensures |briefs| < MaxFetched ==>
      forall b :: b in results && b.id != b.masterId && CheckReleaseNameConsistency(b.title, query) ==> b in briefs
  {
    var good := Filter(results, IsGoodBrief(query));
    var briefs := if |good| <= MaxFetched then good else good[..MaxFetched];
    forall b ensures b in good <==> b in results && IsGoodBrief(query)(b) {
      FilterMembership(results, IsGoodBrief(query), b);
    }
    assert forall b :: b in briefs ==> b in good;
    briefs
  }

  /** The good search results fetched are the first ones in search order: the
      first five good results, or all of them when there are fewer. */
  lemma GoodBriefsAreFirst(results: seq<SearchResult>, query: string)
    ensures var good, briefs := Filter(results, IsGoodBrief(query)), GoodBriefReleases(results, query);
      briefs <= good && |briefs| == if |good| < MaxFetched then |good| else MaxFetched
  {
  }

  /** A tracklist entry with a position. */
  predicate HasPosition(track: Track) { track.position != "" }

  /** The release made of a fetched response, when its tracklist is present and
      has one entry per track; entries without a position are dropped. */
  function Accept(response: ReleaseResponse, tracksCount: int): (r: Option<Release>)
    ensures r.Some? <==> response.tracklist.Some? && |response.tracklist.value| == tracksCount
    ensures r.Some? ==> r.value.title == response.title && r.value.artists == response.artists && r.value.have == response.have
    ensures r.Some? ==> forall x :: x in r.value.tracklist <==> x in response.tracklist.value && x.position != ""
  {
    match response.tracklist
    case None => None
    case Some(tracklist) =>
      if |tracklist| != tracksCount then None
      else
        forall x ensures x in Filter(tracklist, HasPosition) <==> x in tracklist && HasPosition(x) {
          FilterMembership(tracklist, HasPosition, x);
        }
        Some(Release(response.title, Filter(tracklist, HasPosition), response.artists, response.have))
  }

  /** An accepted release keeps the entries with a position in their order. */
  lemma AcceptKeepsOrder(response: ReleaseResponse, tracksCount: int)
    requires Accept(response, tracksCount).Some?
    ensures Accept(response, tracksCount).value.tracklist == Filter(response.tracklist.value, HasPosition)
  {
  }

  /** The release fetched for one search result, if the fetch succeeds and the
      release is accepted. */
  function FetchOne(db: Database, brief: SearchResult, tracksCount: int): Option<Release>
  {
    match db.getRelease(brief.id)
    case None => None
    case Some(response) => Accept(response, tracksCount)
  }

  /** The accepted releases of the search results, in order. */
  function Fetched(db: Database, briefs: seq<SearchResult>, tracksCount: int): (releases: seq<Release>)
    ensures |releases| <= |briefs|
  {
    if briefs == [] then []
    else
      var last := briefs[|briefs| - 1];
      Fetched(db, briefs[..|briefs| - 1], tracksCount)
        + (match FetchOne(db, last, tracksCount) case None => [] case Some(release) => [release])
  }

  /** Fetching keeps the order of the search results: the releases of two runs
      of results are those of the first run, then those of the second. */
  lemma {:induction false} FetchedAppend(db: Database, first: seq<SearchResult>, second: seq<SearchResult>, tracksCount: int)
    ensures Fetched(db, first + second, tracksCount) == Fetched(db, first, tracksCount) + Fetched(db, second, tracksCount)
    decreases |second|
  {
    if second == [] {
      assert first + second == first;
    } else {
      var all := first + second;
      var init := second[..|second| - 1];
      assert all[..|all| - 1] == first + init;
      assert all[|all| - 1] == second[|second| - 1];
      FetchedAppend(db, first, init, tracksCount);
    }
  }

  /** The releases found for a query: the accepted releases of the good search
      results that conform to the directory. */
  function MatchingReleases(db: Database, dirInfo: TrackDirInfo, query: string, tracksCount: int): (releases: seq<Release>)
  {
    var briefs := GoodBriefReleases(db.search(query), query);
    CheckReleasesConsistency(dirInfo, Fetched(db, briefs, tracksCount))
  }

  /** `FindMatchingReleases`: search, fetch each good result in turn (a failed
      fetch is skipped), keep the accepted releases, then the conforming ones. */
  method FindMatchingReleases(db: Database, dirInfo: TrackDirInfo, query: string, tracksCount: int)
    returns (releases: seq<Release>)
    ensures releases == MatchingReleases(db, dirInfo, query, tracksCount)
  {
    var searchResult := db.search(query);
    var goodBriefReleases := GoodBriefReleases(searchResult, query);
    var found: seq<Release> := [];
    for i := 0 to |goodBriefReleases|
      invariant found == Fetched(db, goodBriefReleases[..i], tracksCount)
    {
      var releaseBrief := goodBriefReleases[i];
      FetchedStep(db, goodBriefReleases, i, tracksCount);
      var response := db.getRelease(releaseBrief.id);
      if response.None? {
        continue;
      }
      var release := response.value;
      if release.tracklist.None? || |release.tracklist.value| != tracksCount {
        continue;
      }
      var tracklist := Filter(release.tracklist.value, HasPosition);
      found := found + [Release(release.title, tracklist, release.artists, release.have)];
    }
    assert goodBriefReleases[..|goodBriefReleases|] == goodBriefReleases;
    releases := CheckReleasesConsistency(dirInfo, found);
  }

  /** One more search result adds its accepted release, if any. */
  lemma FetchedStep(db: Database, briefs: seq<SearchResult>, i: nat, tracksCount: int)
    requires i < |briefs|
    ensures FetchOne(db, briefs[i], tracksCount).None? ==>
      Fetched(db, briefs[..i + 1], tracksCount) == Fetched(db, briefs[..i], tracksCount)
    ensures FetchOne(db, briefs[i], tracksCount).Some? ==>
      Fetched(db, briefs[..i + 1], tracksCount) == Fetched(db, briefs[..i], tracksCount) + [FetchOne(db, briefs[i], tracksCount).value]
  {
    assert briefs[..i + 1][..i] == briefs[..i];
  }

  /** Where each release found for a query comes from: a good search result
      whose release was fetched, had one tracklist entry per track and lost
      only its entries without a position. */
  lemma {:induction false} FetchedOrigin(db: Database, briefs: seq<SearchResult>, tracksCount: int, release: Release)
    requires release in Fetched(db, briefs, tracksCount)
    ensures exists b, response :: b in briefs && db.getRelease(b.id) == Some(response) && Accept(response, tracksCount) == Some(release)
  {
    var last := briefs[|briefs| - 1];
    var init := briefs[..|briefs| - 1];
    if release in Fetched(db, init, tracksCount) {
      FetchedOrigin(db, init, tracksCount, release);
      var b, response :| b in init && db.getRelease(b.id) == Some(response) && Accept(response, tracksCount) == Some(release);
      assert b in briefs;
    } else {
      assert FetchOne(db, last, tracksCount) == Some(release);
      assert last in briefs;
    }
  }

  /** Every good search result among the first five whose fetch succeeds and is
      accepted gives a release. */
  lemma {:induction false} FetchedComplete(db: Database, briefs: seq<SearchResult>, tracksCount: int, k: nat)
    requires k < |briefs| && FetchOne(db, briefs[k], tracksCount).Some?
    ensures FetchOne(db, briefs[k], tracksCount).value in Fetched(db, briefs, tracksCount)
  {
    if k < |briefs| - 1 {
      var init := briefs[..|briefs| - 1];
      assert init[k] == briefs[k];
      FetchedComplete(db, init, tracksCount, k);
    }
  }

  /** The releases found for a query: at most five, each of a good search
      result, with one tracklist entry per track before the entries without a
      position were dropped, and conforming to the directory. */
  lemma MatchingReleasesFacts(db: Database, dirInfo: TrackDirInfo, query: string, tracksCount: int)
    ensures |MatchingReleases(db, dirInfo, query, tracksCount)| <= MaxFetched
    ensures forall release :: release in MatchingReleases(db, dirInfo, query, tracksCount) ==>
      && (forall x :: x in release.tracklist ==> x.position != "")
      && Conformity(release.tracklist, DirTokens(dirInfo)) >= |DirTokens(dirInfo)| / 3
      && exists b, response ::
           && b in db.search(query) && b.id != b.masterId && CheckReleaseNameConsistency(b.title, query)
           && db.getRelease(b.id) == Some(response)
           && response.tracklist.Some? && |response.tracklist.value| == tracksCount
           && release.title == response.title
  {
    var briefs := GoodBriefReleases(db.search(query), query);
    forall release | release in MatchingReleases(db, dirInfo, query, tracksCount)
      ensures forall x :: x in release.tracklist ==> x.position != ""
      ensures exists b, response ::
           && b in db.search(query) && b.id != b.masterId && CheckReleaseNameConsistency(b.title, query)
           && db.getRelease(b.id) == Some(response)
           && response.tracklist.Some? && |response.tracklist.value| == tracksCount
           && release.title == response.title
    {
      FetchedOrigin(db, briefs, tracksCount, release);
    }
  }

  // ---------------------------------------------------------------------------
  // Search queries

  /** The name with every character outside the allowed-symbol set dropped. */
  function SimplifiedName(dirName: string): (r: string)
    ensures forall i :: 0 <= i < |r| ==> IsCommonSymbol(r[i])
    ensures forall c :: c in r <==> c in dirName && IsCommonSymbol(c)
  {
    forall c ensures c in Filter(dirName, IsCommonSymbol) <==> c in dirName && IsCommonSymbol(c) {
      FilterMembership(dirName, IsCommonSymbol, c);
    }
    Filter(dirName, IsCommonSymbol)
  }

  /** Simplifying keeps the order of the characters: a name made of two parts
      simplifies to the two parts simplified, one after the other. */
  lemma SimplifiedNameAppend(s: string, t: string)
    ensures SimplifiedName(s + t) == SimplifiedName(s) + SimplifiedName(t)
  {
    FilterAppend(s, t, IsCommonSymbol);
  }

  /** One character is kept exactly when it is an allowed symbol. */
  lemma SimplifiedNameOfChar(c: char)
    ensures SimplifiedName([c]) == if IsCommonSymbol(c) then [c] else []
  {
    assert [c][1..] == [];
  }

  /** A name made only of allowed symbols is its own simplified name. */
  lemma SimplifiedNameOfSimple(s: string)
    requires forall i :: 0 <= i < |s| ==> IsCommonSymbol(s[i])
    ensures SimplifiedName(s) == s
  {
    FilterAll(s, IsCommonSymbol);
  }

  /** `DirNameToQueries`: the simplified name's space-separated words; then the
      first `n` words joined by spaces, for `n` from the number of words down
      to 2. So the first query is the whole simplified name; `QueryCount`
      and `QueryWords` say how many queries there are and what each is. */
  function DirNameToQueries(dirName: string): (queries: seq<string>)
    ensures |queries| == |Split(SimplifiedName(dirName), ' ')| - 1
    ensures queries != [] ==> queries[0] == SimplifiedName(dirName)
  {
    var simplifiedName := SimplifiedName(dirName);
    var words := Split(simplifiedName, ' ');
    var queries := WordPrefixes(words);
    assert queries != [] ==> queries[0] == simplifiedName by {
      if queries != [] {
        assert queries[0] == Join(words[..|words|], ' ');
        assert words[..|words|] == words;
        JoinSplit(simplifiedName, ' ');
      }
    }
    queries
  }

  /** The first `n` words joined by spaces, for `n` from the number of words
      down to 2. */
  function WordPrefixes(words: seq<string>): (queries: seq<string>)
    requires words != []
    ensures |queries| == |words| - 1
    ensures forall x :: 0 <= x < |words| - 1 ==> queries[x] == Join(words[..|words| - x], ' ')
  {
    seq(|words| - 1, x requires 0 <= x < |words| - 1 => Join(words[..|words| - x], ' '))
  }

  /** Query `k` is made of the first words of the simplified name, all but the
      last `k`, and is a prefix of the simplified name. */
  lemma QueryWords(dirName: string, k: nat)
    requires k < |DirNameToQueries(dirName)|
    ensures Split(DirNameToQueries(dirName)[k], ' ') == Split(SimplifiedName(dirName), ' ')[..|DirNameToQueries(dirName)| + 1 - k]
    ensures DirNameToQueries(dirName)[k] <= SimplifiedName(dirName)
  {
    var name := SimplifiedName(dirName);
    var words := Split(name, ' ');
    var n := |words| - k;
    assert DirNameToQueries(dirName)[k] == Join(words[..n], ' ') by {
      assert DirNameToQueries(dirName) == WordPrefixes(words);
    }
    JoinSplit(name, ' ');
    QueryOfWords(words, n);
  }

  /** The first `n` of the words, joined, split back into those words and are
      a prefix of all the words joined. */
  lemma QueryOfWords(words: seq<string>, n: nat)
    requires 1 <= n <= |words|
    requires forall k :: 0 <= k < |words| ==> ' ' !in words[k]
    ensures Split(Join(words[..n], ' '), ' ') == words[..n]
    ensures Join(words[..n], ' ') <= Join(words, ' ')
  {
    var first := words[..n];
    assert forall k :: 0 <= k < |first| ==> ' ' !in first[k];
    SplitJoin(first, ' ');
    JoinPrefix(words, n);
  }

  lemma JoinPrefix(words: seq<string>, n: nat)
    requires 1 <= n <= |words|
    ensures Join(words[..n], ' ') <= Join(words, ' ')
  {
    if n < |words| {
      var x, y := Join(words[..n], ' '), Join(words[n..], ' ');
      assert Join(words, ' ') == x + [' '] + y by {
        assert words == words[..n] + words[n..];
        JoinConcat(words[..n], words[n..], ' ');
      }
      assert (x + [' '] + y)[..|x|] == x;
    } else {
      assert words[..n] == words;
    }
  }

  /** There is one query per space of the simplified name. */
  lemma QueryCount(dirName: string)
    ensures |DirNameToQueries(dirName)| == multiset(SimplifiedName(dirName))[' ']
  {
    SplitCount(SimplifiedName(dirName), ' ');
  }

  /** A name of one word gives no query. */
  lemma OneWordNoQueries(dirName: string)
    requires ' ' !in SimplifiedName(dirName)
    ensures DirNameToQueries(dirName) == []
  {
    QueryCount(dirName);
  }

  /** A simplified name of four words, such as "Artist Name Full Album",
      gives three queries: the four words, the first three, the first two. */
  lemma FourWords(dirName: string, a: string, b: string, c: string, d: string)
    requires ' ' !in a && ' ' !in b && ' ' !in c && ' ' !in d
    requires SimplifiedName(dirName) == a + " " + b + " " + c + " " + d
    ensures DirNameToQueries(dirName) == [a + " " + b + " " + c + " " + d, a + " " + b + " " + c, a + " " + b]
  {
    var words := [a, b, c, d];
    var q0, q1, q2 := JoinFour(a, b, c, d);
    assert DirNameToQueries(dirName) == WordPrefixes(words) by {
      QueriesOfWords(dirName, words);
    }
    assert WordPrefixes(words) == [q0, q1, q2] by {
      assert words[..4] == words && words[..3] == [a, b, c] && words[..2] == [a, b];
    }
  }

  /** The words joined, without the last word, and without the last two. */
  lemma JoinFour(a: string, b: string, c: string, d: string) returns (q0: string, q1: string, q2: string)
    ensures q0 == Join([a, b, c, d], ' ') == a + " " + b + " " + c + " " + d
    ensures q1 == Join([a, b, c], ' ') == a + " " + b + " " + c
    ensures q2 == Join([a, b], ' ') == a + " " + b
  {
    JoinCons(a, [b]);
    assert [a, b] == [a] + [b];
    JoinCons(b, [c]);
    JoinCons(a, [b, c]);
    assert [a, b, c] == [a] + [b, c] && [b, c] == [b] + [c];
    JoinCons(c, [d]);
    JoinCons(b, [c, d]);
    JoinCons(a, [b, c, d]);
    assert [a, b, c, d] == [a] + [b, c, d] && [b, c, d] == [b] + [c, d] && [c, d] == [c] + [d];
    q0, q1, q2 := Join([a, b, c, d], ' '), Join([a, b, c], ' '), Join([a, b], ' ');
  }

  /** The queries of a simplified name whose words are known. */
  lemma QueriesOfWords(dirName: string, words: seq<string>)
    requires words != [] && forall k :: 0 <= k < |words| ==> ' ' !in words[k]
    requires SimplifiedName(dirName) == Join(words, ' ')
    ensures DirNameToQueries(dirName) == WordPrefixes(words)
  {
    SplitJoin(words, ' ');
  }

  /** The queries of a directory: those of the common file-name prefix, if
      there is one, then those of the directory's own name. */
  function Queries(dirInfo: TrackDirInfo): seq<string>
  {
    match dirInfo.commonPrefix
    case None => DirNameToQueries(GetFileName(dirInfo.path))
    case Some(prefix) => DirNameToQueries(prefix) + DirNameToQueries(GetFileName(dirInfo.path))
  }

  /** How many queries come from the common file-name prefix. */
  function PrefixQueryCount(dirInfo: TrackDirInfo): nat
  {
    match dirInfo.commonPrefix
    case None => 0
    case Some(prefix) => |DirNameToQueries(prefix)|
  }

  /** The queries of a directory, in order: first the word prefixes of the
      simplified common file-name prefix, longest first, then those of the
      simplified directory name, longest first. */
  lemma QueryOfDirectory(dirInfo: TrackDirInfo, k: nat)
    requires k < |Queries(dirInfo)|
    ensures |Queries(dirInfo)| == PrefixQueryCount(dirInfo) + |DirNameToQueries(GetFileName(dirInfo.path))|
    ensures k < PrefixQueryCount(dirInfo) ==>
      var name := dirInfo.commonPrefix.value;
      && Queries(dirInfo)[k] == DirNameToQueries(name)[k]
      && Queries(dirInfo)[k] <= SimplifiedName(name)
      && Split(Queries(dirInfo)[k], ' ') == Split(SimplifiedName(name), ' ')[..|DirNameToQueries(name)| + 1 - k]
    ensures k >= PrefixQueryCount(dirInfo) ==>
      var name, i := GetFileName(dirInfo.path), k - PrefixQueryCount(dirInfo);
      && Queries(dirInfo)[k] == DirNameToQueries(name)[i]
      && Queries(dirInfo)[k] <= SimplifiedName(name)
      && Split(Queries(dirInfo)[k], ' ') == Split(SimplifiedName(name), ' ')[..|DirNameToQueries(name)| + 1 - i]
  {
    var n := PrefixQueryCount(dirInfo);
    if k < n {
      QueryWords(dirInfo.commonPrefix.value, k);
    } else {
      QueryWords(GetFileName(dirInfo.path), k - n);
    }
  }

  // ---------------------------------------------------------------------------
  // Trying the queries in turn

  /** The releases a query finds for a directory. */
  function Found(db: Database, dirInfo: TrackDirInfo, query: string): seq<Release>
  {
    MatchingReleases(db, dirInfo, query, |dirInfo.tracks|)
  }

  /** The releases each query finds, in order. */
  function FoundByEach(db: Database, dirInfo: TrackDirInfo, queries: seq<string>): (found: seq<seq<Release>>)
    ensures |found| == |queries| && forall k :: 0 <= k < |queries| ==> found[k] == Found(db, dirInfo, queries[k])
  {
    seq(|queries|, k requires 0 <= k < |queries| => Found(db, dirInfo, queries[k]))
  }

  /** The releases found by the first query, in order, that finds any; none
      when no query does. */
  function FirstFound(db: Database, dirInfo: TrackDirInfo, queries: seq<string>): (releases: seq<Release>)
    ensures releases == [] <==> forall k :: 0 <= k < |queries| ==> Found(db, dirInfo, queries[k]) == []
  {
    FirstNonEmpty(FoundByEach(db, dirInfo, queries))
  }

  /** What the first query that finds releases finds is what the queries find. */
  lemma FirstFoundIsFirst(db: Database, dirInfo: TrackDirInfo, queries: seq<string>, k: nat)
    requires k < |queries| && Found(db, dirInfo, queries[k]) != []
    requires forall j :: 0 <= j < k ==> Found(db, dirInfo, queries[j]) == []
    ensures FirstFound(db, dirInfo, queries) == Found(db, dirInfo, queries[k])
  {
    FirstNonEmptyIsFirst(FoundByEach(db, dirInfo, queries), k);
  }

  // ---------------------------------------------------------------------------
  // Ranking the releases

  /** The canonicity of each title of a tracklist. */
  function TitleCanonicities(tracklist: seq<Track>): seq<int>
  {
    seq(|tracklist|, k requires 0 <= k < |tracklist| => MeasureStringCanonicity(tracklist[k].title))
  }

  function Sum(values: seq<int>): int
  {
    if values == [] then 0 else values[0] + Sum(values[1..])
  }

  /** The ranking key of a release: the summed canonicity of its track
      titles, then how many database users own it. */
  function RankKey(release: Release): (int, int)
  {
    (Sum(TitleCanonicities(release.tracklist)), release.have)
  }

  function RankKeys(releases: seq<Release>): (keys: seq<(int, int)>)
    ensures |keys| == |releases| && forall k :: 0 <= k < |releases| ==> keys[k] == RankKey(releases[k])
  {
    seq(|releases|, k requires 0 <= k < |releases| => RankKey(releases[k]))
  }

  /** Key `x` is at least key `y`, first component first. */
  predicate KeyAtLeast(x: (int, int), y: (int, int))
  {
    x.0 > y.0 || (x.0 == y.0 && x.1 >= y.1)
  }

  /** `sorted` is `releases` rearranged by the permutation `order` of their
      positions, which ranks a greater key first and, among equal keys, the
      earlier position first. */
  ghost predicate StablyRanked(releases: seq<Release>, sorted: seq<Release>, order: seq<nat>)
  {
    && |order| == |sorted| == |releases|
    && (forall x: nat :: x in order <==> x < |releases|)
    && (forall i, j :: 0 <= i < j < |order| ==> order[i] != order[j])
    && (forall k :: 0 <= k < |order| ==> order[k] < |releases| && sorted[k] == releases[order[k]])
    && (forall i, j :: 0 <= i < j < |order| ==> Ahead(RankKeys(releases), order[i], order[j]))
  }

  /** `OrderByDescending` on the ranking key: a stable sort, greatest key first. */
  function Rank(releases: seq<Release>): (sorted: seq<Release>)
    ensures StablyRanked(releases, sorted, RankIndices(RankKeys(releases), |releases|))
  {
    var keys := RankKeys(releases);
    var order := RankIndices(keys, |releases|);
    RankIndicesPermutation(keys, |releases|);
    seq(|releases|, k requires 0 <= k < |releases| => releases[order[k]])
  }

  /** The ranked releases are the releases. */
  lemma RankKeepsReleases(releases: seq<Release>)
    ensures |Rank(releases)| == |releases|
    ensures forall x :: x in Rank(releases) <==> x in releases
  {
    var sorted := Rank(releases);
    var order := RankIndices(RankKeys(releases), |releases|);
    forall x | x in releases ensures x in sorted {
      var i :| 0 <= i < |releases| && releases[i] == x;
      assert i in order;
      var k :| 0 <= k < |order| && order[k] == i;
      assert sorted[k] == x;
    }
  }

  /** The ranked releases come greatest key first. */
  lemma RankDescending(releases: seq<Release>, i: nat, j: nat)
    requires i < j < |releases|
    ensures KeyAtLeast(RankKey(Rank(releases)[i]), RankKey(Rank(releases)[j]))
  {
    var sorted := Rank(releases);
    var order := RankIndices(RankKeys(releases), |releases|);
    assert Ahead(RankKeys(releases), order[i], order[j]);
  }

  // ---------------------------------------------------------------------------
  // Resolving one track

  /** What makes a track's match fail: a track number past the end of a
      tracklist (or 0), an empty tracklist to pick a closest title from, or a
      tracklist position that is not an integer. */
  datatype Fault = IndexOutOfRange | NoTracks | BadPosition(error: ParseError)

  /** Every release has an `n`-th track. */
  predicate HasTrackAt(sorted: seq<Release>, n: int)
  {
    forall k :: 0 <= k < |sorted| ==> 1 <= n <= |sorted[k].tracklist|
  }

  /** The `n`-th track of each release, in ranking order. */
  function TracksAt(sorted: seq<Release>, n: int): (tracks: seq<Track>)
    requires HasTrackAt(sorted, n)
    ensures |tracks| == |sorted| && forall k :: 0 <= k < |sorted| ==> tracks[k] == sorted[k].tracklist[n - 1]
  {
    seq(|sorted|, k requires 0 <= k < |sorted| => sorted[k].tracklist[n - 1])
  }

  /** A numbered track: the first most canonical `n`-th track among the
      releases; a fault when a release has no `n`-th track. */
  function TrackByNumber(sorted: seq<Release>, n: int): (r: Result<Track, Fault>)
    requires sorted != []
    ensures r.Ok? <==> HasTrackAt(sorted, n)
    ensures r.Err? ==> r.error == IndexOutOfRange
    ensures r.Ok? ==> exists k :: 0 <= k < |sorted| && r.value == sorted[k].tracklist[n - 1]
    ensures r.Ok? ==> forall k :: 0 <= k < |sorted| ==>
      MeasureStringCanonicity(sorted[k].tracklist[n - 1].title) <= MeasureStringCanonicity(r.value.title)
  {
    if !HasTrackAt(sorted, n) then Err(IndexOutOfRange)
    else
      var candidates := TracksAt(sorted, n);
      var canonicities := TitleCanonicities(candidates);
      var k := FirstMaxIndex(canonicities);
      assert forall j :: 0 <= j < |sorted| ==>
        canonicities[j] == MeasureStringCanonicity(sorted[j].tracklist[n - 1].title);
      Ok(candidates[k])
  }

  /** Among equally canonical `n`-th tracks, the one of the first ranked
      release wins: every release before it has a less canonical `n`-th track. */
  lemma TrackByNumberFirstOnTies(sorted: seq<Release>, n: int)
    requires sorted != [] && HasTrackAt(sorted, n)
    ensures exists k :: (0 <= k < |sorted| && TrackByNumber(sorted, n) == Ok(sorted[k].tracklist[n - 1])
      && forall j :: 0 <= j < k ==>
           MeasureStringCanonicity(sorted[j].tracklist[n - 1].title) < MeasureStringCanonicity(sorted[k].tracklist[n - 1].title))
  {
    var candidates := TracksAt(sorted, n);
    var canonicities := TitleCanonicities(candidates);
    var k := FirstMaxIndex(canonicities);
    assert TrackByNumber(sorted, n) == Ok(sorted[k].tracklist[n - 1]);
    assert forall j :: 0 <= j < |sorted| ==>
      canonicities[j] == MeasureStringCanonicity(sorted[j].tracklist[n - 1].title);
  }

  /** The edit distance of each title of a tracklist to `title`. */
  function Distances(tracklist: seq<Track>, title: string): seq<int>
  {
    seq(|tracklist|, k requires 0 <= k < |tracklist| => EditDistance(tracklist[k].title, title))
  }

  /** An unnumbered track: the first entry of the tracklist whose title is
      closest to `title`; a fault when the tracklist is empty. */
  function ClosestTrack(tracklist: seq<Track>, title: string): (r: Result<Track, Fault>)
    ensures r.Ok? <==> tracklist != []
    ensures r.Err? ==> r.error == NoTracks
    ensures r.Ok? ==> r.value in tracklist
    ensures r.Ok? ==> forall k :: 0 <= k < |tracklist| ==>
      EditDistance(r.value.title, title) <= EditDistance(tracklist[k].title, title)
  {
    if tracklist == [] then Err(NoTracks)
    else
      var distances := Distances(tracklist, title);
      var k := FirstMinIndex(distances);
      assert forall j :: 0 <= j < |tracklist| ==> distances[j] == EditDistance(tracklist[j].title, title);
      Ok(tracklist[k])
  }

  /** Among entries at the least edit distance, the first wins: every entry
      before it is farther from `title`. */
  lemma ClosestTrackFirstOnTies(tracklist: seq<Track>, title: string)
    requires tracklist != []
    ensures exists k :: (0 <= k < |tracklist| && ClosestTrack(tracklist, title) == Ok(tracklist[k])
      && forall j :: 0 <= j < k ==> EditDistance(tracklist[k].title, title) < EditDistance(tracklist[j].title, title))
  {
    var distances := Distances(tracklist, title);
    var k := FirstMinIndex(distances);
    assert ClosestTrack(tracklist, title) == Ok(tracklist[k]);
    assert forall j :: 0 <= j < |tracklist| ==> distances[j] == EditDistance(tracklist[j].title, title);
  }

  /** `ClosestTrack` computed with the table-filling edit distance: a scan
      that keeps the first entry at the least distance seen so far. */
  method FindClosestTrack(tracklist: seq<Track>, title: string) returns (r: Result<Track, Fault>)
    requires |title| <= MaxStringLength
    ensures r == ClosestTrack(tracklist, title)
  {
    if tracklist == [] {
      return Err(NoTracks);
    }
    var distances := Distances(tracklist, title);
    var best := 0;
    var bestDistance := CalculateLevenshteinDistance(tracklist[0].title, title);
    for i := 1 to |tracklist|
      invariant best < i
      invariant bestDistance == distances[best]
      invariant forall j :: 0 <= j < i ==> bestDistance <= distances[j]
      invariant forall j :: 0 <= j < best ==> bestDistance < distances[j]
    {
      var d := CalculateLevenshteinDistance(tracklist[i].title, title);
      if d < bestDistance {
        best, bestDistance := i, d;
      }
    }
    FirstMinIndexUnique(distances, best);
    r := Ok(tracklist[best]);
  }

  /** The release track a track file is matched with. */
  function ResolveTrack(sorted: seq<Release>, info: TrackInfo): Result<Track, Fault>
    requires sorted != []
  {
    match info.trackNumber
    case Some(n) => TrackByNumber(sorted, n)
    case None => ClosestTrack(sorted[0].tracklist, info.trackTitle)
  }

  /** The release's title replaces the file's when it is at least as
      canonical, or when the file's meaningful tokens, three times over (in
      Int32 arithmetic), are shorter than it. */
  predicate UseReleaseTitle(releaseTitle: string, info: TrackInfo)
  {
    || MeasureStringCanonicity(releaseTitle) >= MeasureStringCanonicity(info.trackTitle)
    || WrapInt32(|info.meaningfulTrackTitleTokens| * 3) < |releaseTitle|
  }

  /** The matched track of one track file: its path in the directory, its own
      number or else its release track's position read as an integer, and the
      title chosen by `UseReleaseTitle`. */
  function MatchTrack(dirPath: string, sorted: seq<Release>, info: TrackInfo): (r: Result<MatchedTrackInfo, Fault>)
    requires sorted != []
    ensures ResolveTrack(sorted, info).Err? ==> r == Err(ResolveTrack(sorted, info).error)
    ensures ResolveTrack(sorted, info).Ok? && info.trackNumber.Some? ==> r.Ok?
    ensures ResolveTrack(sorted, info).Ok? && info.trackNumber.None? ==>
      match ParseInt(ResolveTrack(sorted, info).value.position)
      case Err(e) => r == Err(BadPosition(e))
      case Ok(n) => r.Ok? && r.value.trackNumber == n
    ensures r.Ok? ==> r.value.path == Combine(dirPath, info.fileName)
    ensures r.Ok? && info.trackNumber.Some? ==> r.value.trackNumber == info.trackNumber.value
    ensures r.Ok? ==> var releaseTitle := ResolveTrack(sorted, info).value.title;
      r.value.title == if UseReleaseTitle(releaseTitle, info) then Trim(releaseTitle) else info.trackTitle
  {
    match ResolveTrack(sorted, info)
    case Err(fault) => Err(fault)
    case Ok(releaseTrack) =>
      var title := if UseReleaseTitle(releaseTrack.title, info) then Trim(releaseTrack.title) else info.trackTitle;
      var path := Combine(dirPath, info.fileName);
      match info.trackNumber
      case Some(n) => Ok(MatchedTrackInfo(path, n, title))
      case None =>
        match ParseInt(releaseTrack.position)
        case Err(e) => Err(BadPosition(e))
        case Ok(n) => Ok(MatchedTrackInfo(path, n, title))
  }

  /** The canonicity of each string. */
  function Canonicities(strings: seq<string>): (r: seq<int>)
    ensures |r| == |strings| && forall k :: 0 <= k < |strings| ==> r[k] == MeasureStringCanonicity(strings[k])
  {
    seq(|strings|, k requires 0 <= k < |strings| => MeasureStringCanonicity(strings[k]))
  }

  function ReleaseTitles(releases: seq<Release>): (titles: seq<string>)
    ensures |titles| == |releases| && forall k :: 0 <= k < |releases| ==> titles[k] == releases[k].title
  {
    seq(|releases|, k requires 0 <= k < |releases| => releases[k].title)
  }

  /** The album title: the first most canonical of the ranked release titles
      followed by the directory's own name. */
  function AlbumTitle(sorted: seq<Release>, dirPath: string): (album: string)
    ensures album == GetFileName(dirPath) || exists k :: 0 <= k < |sorted| && album == sorted[k].title
    ensures forall k :: 0 <= k < |sorted| ==> MeasureStringCanonicity(sorted[k].title) <= MeasureStringCanonicity(album)
    ensures MeasureStringCanonicity(GetFileName(dirPath)) <= MeasureStringCanonicity(album)
    ensures exists k :: (0 <= k < |AlbumCandidates(sorted, dirPath)| && album == AlbumCandidates(sorted, dirPath)[k]
      && forall j :: 0 <= j < k ==> MeasureStringCanonicity(AlbumCandidates(sorted, dirPath)[j]) < MeasureStringCanonicity(album))
  {
    var titles := AlbumCandidates(sorted, dirPath);
    var best := FirstMostCanonical(titles);
    assert forall k :: 0 <= k < |sorted| ==> titles[k] == sorted[k].title;
    assert titles[|sorted|] == GetFileName(dirPath);
    titles[best]
  }

  /** The position of the first most canonical string. */
  function FirstMostCanonical(strings: seq<string>): (best: nat)
    requires strings != []
    ensures best < |strings|
    ensures forall j :: 0 <= j < |strings| ==> MeasureStringCanonicity(strings[j]) <= MeasureStringCanonicity(strings[best])
    ensures forall j :: 0 <= j < best ==> MeasureStringCanonicity(strings[j]) < MeasureStringCanonicity(strings[best])
  {
    var canonicities := Canonicities(strings);
    FirstMaxIndex(canonicities)
  }

  /** The strings the album title is chosen from: the ranked release titles,
      then the directory's own name. */
  function AlbumCandidates(sorted: seq<Release>, dirPath: string): seq<string>
  {
    ReleaseTitles(sorted) + [GetFileName(dirPath)]
  }

  /** A release title at least as canonical as the directory's name wins over
      it: the directory's name is the album title only when it is strictly
      more canonical than every release title. */
  lemma {:induction false} AlbumTitlePrefersRelease(sorted: seq<Release>, dirPath: string, k: nat)
    requires k < |sorted|
    requires MeasureStringCanonicity(sorted[k].title) >= MeasureStringCanonicity(GetFileName(dirPath))
    ensures exists i :: 0 <= i < |sorted| && AlbumTitle(sorted, dirPath) == sorted[i].title
  {
    var titles := AlbumCandidates(sorted, dirPath);
    var album := AlbumTitle(sorted, dirPath);
    var i :| 0 <= i < |titles| && album == titles[i]
      && forall j :: 0 <= j < i ==> MeasureStringCanonicity(titles[j]) < MeasureStringCanonicity(album);
    assert titles[k] == sorted[k].title;
    if i == |sorted| {
      assert false;
    }
    assert titles[i] == sorted[i].title;
  }

  /** The first release of the ranking has the greatest key of all. */
  lemma RankFirstIsBest(releases: seq<Release>)
    requires releases != []
    ensures forall x :: x in releases ==> KeyAtLeast(RankKey(Rank(releases)[0]), RankKey(x))
  {
    RankKeepsReleases(releases);
    var sorted := Rank(releases);
    forall x | x in releases ensures KeyAtLeast(RankKey(sorted[0]), RankKey(x)) {
      var j :| 0 <= j < |sorted| && sorted[j] == x;
      if j > 0 {
        RankDescending(releases, 0, j);
      }
    }
  }

  // ---------------------------------------------------------------------------
  // Matching a directory

  /** The match of each track file, in order. */
  function MatchedTracks(dirInfo: TrackDirInfo, sorted: seq<Release>): (matched: seq<Result<MatchedTrackInfo, Fault>>)
    requires sorted != []
    ensures |matched| == |dirInfo.tracks|
    ensures forall k :: 0 <= k < |dirInfo.tracks| ==> matched[k] == MatchTrack(dirInfo.path, sorted, dirInfo.tracks[k])
  {
    seq(|dirInfo.tracks|, k requires 0 <= k < |dirInfo.tracks| => MatchTrack(dirInfo.path, sorted, dirInfo.tracks[k]))
  }

  /** What matching gives once the releases are found: nothing when there are
      none; otherwise, with the releases ranked, the first fault of the track
      files in order, or the album title, the first release's performers and
      the matched tracks. */
  function Outcome(dirInfo: TrackDirInfo, found: seq<Release>): Result<Option<OutputRoot>, Fault>
  {
    if found == [] then Ok(None)
    else
      var sorted := Rank(found);
      match Collect(MatchedTracks(dirInfo, sorted))
      case Err(fault) => Err(fault)
      case Ok(tracks) => Ok(Some(OutputRoot(AlbumTitle(sorted, dirInfo.path), sorted[0].artists, tracks)))
  }

  /** What `Match` gives: the outcome for the releases of the first query that
      finds any. */
  function MatchOutcome(db: Database, dirInfo: TrackDirInfo): Result<Option<OutputRoot>, Fault>
  {
    Outcome(dirInfo, FirstFound(db, dirInfo, Queries(dirInfo)))
  }

  /** `Match`: try the queries in turn until one finds releases, then match
      the directory against them. */
  method Match(db: Database, dirInfo: TrackDirInfo) returns (r: Result<Option<OutputRoot>, Fault>)
    requires forall k :: 0 <= k < |dirInfo.tracks| ==> |dirInfo.tracks[k].trackTitle| <= MaxStringLength
    ensures r == MatchOutcome(db, dirInfo)
  {
    var matchingReleases := FindFirstReleases(db, dirInfo, Queries(dirInfo));
    r := MatchReleases(dirInfo, matchingReleases);
  }

  /** The query loop of `Match`: stops at the first query that finds releases. */
  method FindFirstReleases(db: Database, dirInfo: TrackDirInfo, queries: seq<string>) returns (matchingReleases: seq<Release>)
    ensures matchingReleases == FirstFound(db, dirInfo, queries)
  {
    matchingReleases := [];
    for i := 0 to |queries|
      invariant matchingReleases == [] ==> forall j :: 0 <= j < i ==> Found(db, dirInfo, queries[j]) == []
      invariant matchingReleases != [] ==> matchingReleases == FirstFound(db, dirInfo, queries)
    {
      if matchingReleases != [] {
        break;
      }
      matchingReleases := FindMatchingReleases(db, dirInfo, queries[i], |dirInfo.tracks|);
      assert matchingReleases == Found(db, dirInfo, queries[i]);
      if matchingReleases != [] {
        FirstFoundIsFirst(db, dirInfo, queries, i);
      } else {
        forall j | 0 <= j <= i
          ensures Found(db, dirInfo, queries[j]) == []
        {
          if j == i {
            assert queries[j] == queries[i];
          }
        }
      }
    }
  }

  /** The rest of `Match`: rank the releases found, match each track file in
      order (a fault ends the match), choose the album title and the
      performers. */
  method MatchReleases(dirInfo: TrackDirInfo, matchingReleases: seq<Release>) returns (r: Result<Option<OutputRoot>, Fault>)
    requires forall k :: 0 <= k < |dirInfo.tracks| ==> |dirInfo.tracks[k].trackTitle| <= MaxStringLength
    ensures r == Outcome(dirInfo, matchingReleases)
  {
    if matchingReleases == [] {
      return Ok(None);
    }
    var sortedReleases := Rank(matchingReleases);
    var bestRelease := sortedReleases[0];
    ghost var matched := MatchedTracks(dirInfo, sortedReleases);
    var trackInfos: seq<MatchedTrackInfo> := [];
    for i := 0 to |dirInfo.tracks|
      invariant |trackInfos| == i
      invariant forall k :: 0 <= k < i ==> matched[k] == Ok(trackInfos[k])
    {
      var matchedTrack := MatchOneTrack(dirInfo.path, sortedReleases, dirInfo.tracks[i]);
      if matchedTrack.Err? {
        CollectFirstError(matched, i);
        return Err(matchedTrack.error);
      }
      trackInfos := trackInfos + [matchedTrack.value];
    }
    CollectAllOk(matched, trackInfos);
    r := Ok(Some(OutputRoot(AlbumTitle(sortedReleases, dirInfo.path), bestRelease.artists, trackInfos)));
  }

  /** One round of the track loop of `Match`: find the release track by
      number among the ranked releases or by title in the first of them, then
      choose the title and the number. */
  method MatchOneTrack(dirPath: string, sortedReleases: seq<Release>, trackFileInfo: TrackInfo) returns (r: Result<MatchedTrackInfo, Fault>)
    requires sortedReleases != [] && |trackFileInfo.trackTitle| <= MaxStringLength
    ensures r == MatchTrack(dirPath, sortedReleases, trackFileInfo)
  {
    var releaseTrack: Result<Track, Fault>;
    if trackFileInfo.trackNumber.Some? {
      releaseTrack := TrackByNumber(sortedReleases, trackFileInfo.trackNumber.value);
    } else {
      releaseTrack := FindClosestTrack(sortedReleases[0].tracklist, trackFileInfo.trackTitle);
    }
    if releaseTrack.Err? {
      return Err(releaseTrack.error);
    }
    var track := releaseTrack.value;
    var trackTitle := if UseReleaseTitle(track.title, trackFileInfo) then Trim(track.title) else trackFileInfo.trackTitle;
    var trackNewNumber: int;
    if trackFileInfo.trackNumber.Some? {
      trackNewNumber := trackFileInfo.trackNumber.value;
    } else {
      var parsed := ParseInt(track.position);
      if parsed.Err? {
        return Err(BadPosition(parsed.error));
      }
      trackNewNumber := parsed.value;
    }
    r := Ok(MatchedTrackInfo(Combine(dirPath, trackFileInfo.fileName), trackNewNumber, trackTitle));
  }

  /** The match is empty exactly when no query finds a release. */
  lemma MatchNone(db: Database, dirInfo: TrackDirInfo)
    ensures MatchOutcome(db, dirInfo) == Ok(None) <==>
      forall k :: 0 <= k < |Queries(dirInfo)| ==> Found(db, dirInfo, Queries(dirInfo)[k]) == []
  {
    var found := FirstFound(db, dirInfo, Queries(dirInfo));
    assert Outcome(dirInfo, found) == Ok(None) <==> found == [];
  }

  /** A match fails with the fault of the first track file that cannot be
      matched against the ranked releases. */
  lemma MatchFault(dirInfo: TrackDirInfo, found: seq<Release>)
    requires Outcome(dirInfo, found).Err?
    ensures found != []
    ensures exists k ::
      && 0 <= k < |dirInfo.tracks|
      && MatchTrack(dirInfo.path, Rank(found), dirInfo.tracks[k]) == Err(Outcome(dirInfo, found).error)
      && forall j :: 0 <= j < k ==> MatchTrack(dirInfo.path, Rank(found), dirInfo.tracks[j]).Ok?
  {
  }

  /** A successful match has one matched track per track file, in order, each
      the file's match against the ranked releases; the album title chosen
      from the ranked release titles and the directory name; and the
      performers of the first ranked release, which has the greatest key. */
  lemma MatchOutput(dirInfo: TrackDirInfo, found: seq<Release>)
    requires Outcome(dirInfo, found).Ok? && Outcome(dirInfo, found).value.Some?
    ensures found != []
    ensures var out, sorted := Outcome(dirInfo, found).value.value, Rank(found);
      && |out.tracks| == |dirInfo.tracks|
      && (forall k :: 0 <= k < |dirInfo.tracks| ==> MatchTrack(dirInfo.path, sorted, dirInfo.tracks[k]) == Ok(out.tracks[k]))
      && out.album == AlbumTitle(sorted, dirInfo.path)
      && out.performers == sorted[0].artists
      && forall x :: x in found ==> KeyAtLeast(RankKey(sorted[0]), RankKey(x))
  {
    RankFirstIsBest(found);
  }
}
