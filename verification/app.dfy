/** The application component (js/app.js): the filtered lists the pages show,
    the hashtag selection the recommendation filter uses, the friend search
    guard and the reset on sign-out. */
module App {
  import opened Results
  import opened Seqs
  import opened Text
  import opened Store
  import opened Recommendations
  import opened Friends
  import opened Profile
  import opened Admin

  // ------------------------------------------------------------ list filters

  /** `rec.hashtags && rec.hashtags.includes(tag)` for every selected tag:
      a row without hashtags passes only when nothing is selected. */
  predicate HasAllTags(hashtags: Option<seq<string>>, selected: seq<string>) {
    forall tag | tag in selected :: hashtags.Some? && tag in hashtags.value
  }

  /** The search condition of the recommendation list. */
  predicate RecommendationMatches(v: RecommendationView, search: string) {
    ContainsIgnoringCase(v.rec.title, search) || ContainsIgnoringCase(v.rec.description, search)
  }

  /** `filteredRecommendations`: first the search filter (skipped for an empty
      search), then the hashtag filter (skipped when nothing is selected). The
      result keeps the list's order and holds exactly the rows that pass both. */
  function FilteredRecommendations(recs: seq<RecommendationView>, search: string, selected: seq<string>)
    : (r: seq<RecommendationView>)
    ensures IsSubsequence(r, recs)
    ensures search == "" && selected == [] ==> r == recs
    ensures forall v | v in r :: search != "" ==> RecommendationMatches(v, search)
    ensures forall v | v in r :: HasAllTags(v.rec.hashtags, selected)
    ensures selected != [] ==> forall v | v in r :: v.rec.hashtags.Some?
    ensures forall v | v in recs && (search == "" || RecommendationMatches(v, search)) &&
                       HasAllTags(v.rec.hashtags, selected) :: v in r
    ensures forall v :: Count(r, v) == if (search == "" || RecommendationMatches(v, search)) &&
                                          HasAllTags(v.rec.hashtags, selected)
                                       then Count(recs, v) else 0
  {
    var matches := (v: RecommendationView) => RecommendationMatches(v, search);
    var tagged := (v: RecommendationView) => HasAllTags(v.rec.hashtags, selected);
    var bySearch := if search != "" then Filter(recs, matches) else recs;
    var r := if |selected| > 0 then Filter(bySearch, tagged) else bySearch;
    SubsequenceRefl(recs);
    SubsequenceRefl(bySearch);
    SubsequenceTrans(r, bySearch, recs);
    FilterKeeps(recs, matches);
    FilterKeeps(bySearch, tagged);
    assert selected != [] ==> forall v | v in r :: v.rec.hashtags.Some? by {
      if selected != [] {
        forall v | v in r ensures v.rec.hashtags.Some? {
          assert selected[0] in selected;
        }
      }
    }
    r
  }

  /** The search condition of the friend list and the admin user list. */
  predicate PersonMatches(username: string, email: string, search: string) {
    ContainsIgnoringCase(username, search) || ContainsIgnoringCase(email, search)
  }

  /** `filteredFriends`: the whole list for an empty search, otherwise exactly
      the friends whose name or email contains the search, ignoring case. */
  function FilteredFriends(friends: seq<UserSummary>, search: string): (r: seq<UserSummary>)
    ensures IsSubsequence(r, friends)
    ensures search == "" ==> r == friends
    ensures search != "" ==>
      forall f :: f in r <==> f in friends && PersonMatches(f.username, f.email, search)
    ensures search != "" ==> forall f ::
      Count(r, f) == if PersonMatches(f.username, f.email, search) then Count(friends, f) else 0
  {
    if search == "" then
      SubsequenceRefl(friends);
      friends
    else
      var keep := (f: UserSummary) => PersonMatches(f.username, f.email, search);
      FilterKeeps(friends, keep);
      Filter(friends, keep)
  }

  /** `filteredAdminUsers`: as `filteredFriends`, over all users. */
  function FilteredAdminUsers(users: seq<User>, search: string): (r: seq<User>)
    ensures IsSubsequence(r, users)
    ensures search == "" ==> r == users
    ensures search != "" ==>
      forall u :: u in r <==> u in users && PersonMatches(u.username, u.email, search)
    ensures search != "" ==> forall u ::
      Count(r, u) == if PersonMatches(u.username, u.email, search) then Count(users, u) else 0
  {
    if search == "" then
      SubsequenceRefl(users);
      users
    else
      var keep := (u: User) => PersonMatches(u.username, u.email, search);
      FilterKeeps(users, keep);
      Filter(users, keep)
  }

  /** `filteredAdminRecommendations`: the whole list for an empty search,
      otherwise exactly the rows whose title or author name contains it. */
  function FilteredAdminRecommendations(recs: seq<DetailedRecommendation>, search: string)
    : (r: seq<DetailedRecommendation>)
    ensures IsSubsequence(r, recs)
    ensures search == "" ==> r == recs
    ensures search != "" ==> forall d :: d in r <==>
      (d in recs && (ContainsIgnoringCase(d.rec.title, search) || ContainsIgnoringCase(d.username, search)))
    ensures search != "" ==> forall d ::
      Count(r, d) == if ContainsIgnoringCase(d.rec.title, search) || ContainsIgnoringCase(d.username, search)
                     then Count(recs, d) else 0
  {
    if search == "" then
      SubsequenceRefl(recs);
      recs
    else
      var keep := (d: DetailedRecommendation) =>
        ContainsIgnoringCase(d.rec.title, search) || ContainsIgnoringCase(d.username, search);
      FilterKeeps(recs, keep);
      Filter(recs, keep)
  }

  // ------------------------------------------------------- hashtag selection

  /** The list after `toggleHashtag(tag)`: an absent tag is appended; a
      present one loses its first occurrence and the rest keep their order. */
  function Toggled(s: seq<string>, tag: string): (r: seq<string>)
    ensures tag !in s ==> r == s + [tag]
    ensures tag in s ==>
      && |r| == |s| - 1
      && multiset(r) == multiset(s) - multiset{tag}
      && forall k | 0 <= k < |r| :: r[k] == if k < FirstIndex(s, tag) then s[k] else s[k + 1]
  {
    var i := FirstIndex(s, tag);
    if i == -1 then s + [tag]
    else
      assert s == s[..i] + [tag] + s[i + 1..];
      s[..i] + s[i + 1..]
  }

  /** Toggling keeps the selection free of repeats, and then a toggled-off
      tag is no longer selected. */
  lemma ToggledNoDuplicates(s: seq<string>, tag: string)
    requires NoDuplicates(s)
    ensures NoDuplicates(Toggled(s, tag))
    ensures tag in Toggled(s, tag) <==> tag !in s
  {
    var r := Toggled(s, tag);
    if tag in s {
      var i := FirstIndex(s, tag);
      forall a, b | 0 <= a < b < |r| ensures r[a] != r[b] {
        var a', b' := if a < i then a else a + 1, if b < i then b else b + 1;
        assert r[a] == s[a'] && r[b] == s[b'] && a' < b';
      }
      forall k | 0 <= k < |r| ensures r[k] != tag {
        var k' := if k < i then k else k + 1;
        assert r[k] == s[k'] && k' != i;
      }
    }
  }

  /** On a selection without repeats, toggling a tag twice restores whether
      it is selected; when it was not selected, the list is back exactly as
      before. */
  lemma ToggleTwice(s: seq<string>, tag: string)
    requires NoDuplicates(s)
    ensures tag in Toggled(Toggled(s, tag), tag) <==> tag in s
    ensures tag !in s ==> Toggled(Toggled(s, tag), tag) == s
  {
    if tag !in s {
      UntoggleAppended(s, tag);
    } else {
      ToggledNoDuplicates(s, tag);
    }
  }

  /** Toggling a tag that was just appended removes it again. */
  lemma UntoggleAppended(s: seq<string>, tag: string)
    requires tag !in s
    ensures Toggled(s + [tag], tag) == s
  {
    var once := s + [tag];
    var i := FirstIndex(once, tag);
    assert once[..|s|] == s;
    assert tag !in once[..|s|];
    assert i == |s| by {
      assert once[|s|] == tag;
      assert i <= |s|;
    }
  }

  /** The list after `selectHashtag(tag)`: the tag is appended unless present. */
  function Selected(s: seq<string>, tag: string): (r: seq<string>)
    ensures tag in r
    ensures tag in s ==> r == s
    ensures tag !in s ==> r == s + [tag]
  {
    if tag in s then s else s + [tag]
  }

  /** Selecting a tag twice is selecting it once, and never adds a repeat. */
  lemma SelectIdempotent(s: seq<string>, tag: string)
    ensures Selected(Selected(s, tag), tag) == Selected(s, tag)
    ensures NoDuplicates(s) ==> NoDuplicates(Selected(s, tag))
  {
  }

  // ------------------------------------------------------------ the component

  /** The messages `searchFriends` shows in `friendError`. */
  datatype FriendSearchError = QueryTooShort | NoUsersFound

  /** The fields of the component that the modelled methods read or write. */
  class AppState {
    var profile: Option<User>
    var currentTab: string
    var recommendations: seq<RecommendationView>
    var selectedHashtags: seq<string>
    var popularHashtags: seq<string>
    var friends: seq<UserSummary>
    var friendUsername: string
    var friendError: Option<FriendSearchError>
    var searchResults: seq<UserSummary>
    var myGifts: seq<GiftView>
    var isAdmin: bool
    var allUsers: seq<User>
    var allRecommendations: seq<DetailedRecommendation>

    /** The hashtag selection never holds a tag twice. */
    ghost predicate Valid()
      reads this
    {
      NoDuplicates(selectedHashtags)
    }

    /** The component's initial `data()`. */
    constructor ()
      ensures Valid()
      ensures profile == None && currentTab == "recommendations" && isAdmin == false
      ensures recommendations == [] && selectedHashtags == [] && popularHashtags == []
      ensures friends == [] && friendUsername == "" && friendError == None && searchResults == []
      ensures myGifts == [] && allUsers == [] && allRecommendations == []
    {
      profile, currentTab, isAdmin := None, "recommendations", false;
      recommendations, selectedHashtags, popularHashtags := [], [], [];
      friends, friendUsername, friendError, searchResults := [], "", None, [];
      myGifts, allUsers, allRecommendations := [], [], [];
    }

    /** `toggleHashtag(tag)`: `indexOf`, then `push` or `splice(index, 1)`. */
    method ToggleHashtag(tag: string)
      requires Valid()
      modifies this`selectedHashtags
      ensures Valid()
      ensures selectedHashtags == Toggled(old(selectedHashtags), tag)
      ensures tag in selectedHashtags <==> tag !in old(selectedHashtags)
    {
      ToggledNoDuplicates(selectedHashtags, tag);
      var index := FirstIndex(selectedHashtags, tag);
      if index == -1 {
        selectedHashtags := selectedHashtags + [tag];
      } else {
        selectedHashtags := selectedHashtags[..index] + selectedHashtags[index + 1..];
      }
    }

    /** `selectHashtag(tag)`: `push` unless already `includes`. */
    method SelectHashtag(tag: string)
      requires Valid()
      modifies this`selectedHashtags
      ensures Valid()
      ensures selectedHashtags == Selected(old(selectedHashtags), tag)
    {
      SelectIdempotent(selectedHashtags, tag);
      if tag !in selectedHashtags {
        selectedHashtags := selectedHashtags + [tag];
      }
    }

    /** `searchFriends()`: a query shorter than three characters clears the
        results and reports it without searching; otherwise the results are
        `searchUsers(friendUsername)`, with a message when there are none. */
    method SearchFriends(db: Db, session: Option<UserId>)
      modifies this`searchResults, this`friendError
      ensures |friendUsername| < 3 ==> searchResults == [] && friendError == Some(QueryTooShort)
      ensures |friendUsername| >= 3 ==>
        && searchResults == SearchUsers(db, session, friendUsername)
        && friendError == if searchResults == [] then Some(NoUsersFound) else None
    {
      if |friendUsername| < 3 {
        friendError := Some(QueryTooShort);
        searchResults := [];
        return;
      }
      searchResults := SearchUsers(db, session, friendUsername);
      if |searchResults| == 0 {
        friendError := Some(NoUsersFound);
      } else {
        friendError := None;
      }
    }

    /** `resetAllData()`: clears the signed-in user's data and returns to the
        recommendations tab; the hashtag selection, the search fields and
        the friend search state are not touched. */
    method ResetAllData()
      modifies this`profile, this`recommendations, this`friends, this`myGifts, this`popularHashtags,
               this`currentTab, this`isAdmin, this`allUsers, this`allRecommendations
      ensures profile == None && recommendations == [] && friends == [] && myGifts == []
      ensures popularHashtags == [] && currentTab == "recommendations" && !isAdmin
      ensures allUsers == [] && allRecommendations == []
    {
      profile := None;
      recommendations := [];
      friends := [];
      myGifts := [];
      popularHashtags := [];
      currentTab := "recommendations";
      isAdmin := false;
      allUsers := [];
      allRecommendations := [];
    }
  }
}
