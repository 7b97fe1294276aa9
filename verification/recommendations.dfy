/** Recommendations (js/recommendations.js): listing with author details,
    adding with hashtags parsed from a comma-separated string, deleting by the
    author or an administrator, and ranking the most used hashtags. */
module Recommendations {
  import opened Results
  import opened Seqs
  import opened Sorting
  import opened Text
  import opened Store

  /** What the "add recommendation" form submits; `hashtags` is free text. */
  datatype RecommendationInput = RecommendationInput(
    title: string,
    description: string,
    mediaUrl: string,
    link: string,
    articleNumber: string,
    hashtags: string)

  /** A row as `getRecommendations` hands it out: the stored row with its
      author's `username` and `avatar_url` copied on. */
  datatype RecommendationView = RecommendationView(rec: Recommendation, username: string, avatarUrl: Option<string>)

  // ------------------------------------------------------------------ hashtags

  function TrimAll(parts: seq<string>): (r: seq<string>)
    ensures |r| == |parts|
    ensures forall i | 0 <= i < |parts| :: r[i] == Trim(parts[i])
  {
    seq(|parts|, i requires 0 <= i < |parts| => Trim(parts[i]))
  }

  /** A well-formed hashtag: non-empty, trimmed and free of commas. */
  predicate IsHashtag(t: string) {
    t != "" && IsTrimmed(t) && ',' !in t
  }

  /** `hashtags.split(',').map(tag => tag.trim()).filter(tag => tag.length > 0)`:
      every tag is well formed, the tags keep the order of the input, and every
      non-empty trimmed piece is kept as often as it occurs. */
  function ParseHashtags(s: string): (tags: seq<string>)
    ensures forall t | t in tags :: IsHashtag(t)
    ensures IsSubsequence(tags, TrimAll(Split(s, ",")))
    ensures forall t | t in TrimAll(Split(s, ",")) && t != "" :: Count(tags, t) == Count(TrimAll(Split(s, ",")), t)
  {
    var parts := Split(s, ",");
    var trimmed := TrimAll(parts);
    TrimmedPieces(parts);
    var tags := Filter(trimmed, (t: string) => |t| > 0);
    assert forall t | t in tags :: t in trimmed && |t| > 0;
    tags
  }

  /** The trimmed pieces of a split on ',' are trimmed and comma-free. */
  lemma TrimmedPieces(parts: seq<string>)
    requires forall p | p in parts :: !Contains(p, ",")
    ensures forall t | t in TrimAll(parts) :: IsTrimmed(t) && ',' !in t
  {
    var trimmed := TrimAll(parts);
    forall i | 0 <= i < |parts| ensures IsTrimmed(trimmed[i]) && ',' !in trimmed[i] {
      assert parts[i] in parts;
      ContainsChar(parts[i], ',');
    }
  }

  lemma {:induction false} JoinMembers(parts: seq<string>, sep: string, p: string, c: char)
    requires p in parts && c in p
    ensures c in Join(parts, sep)
  {
    if parts[0] == p {
      if |parts| > 1 {
        assert Join(parts, sep) == p + (sep + Join(parts[1..], sep));
      }
    } else {
      assert p in parts[1..];
      JoinMembers(parts[1..], sep, p, c);
      assert Join(parts, sep) == (parts[0] + sep) + Join(parts[1..], sep);
    }
  }

  /** A string of nothing but commas and whitespace holds no hashtag. */
  lemma ParseBlank(s: string)
    requires forall c | c in s :: c == ',' || IsWhitespace(c)
    ensures ParseHashtags(s) == []
  {
    var parts := Split(s, ",");
    var trimmed := TrimAll(parts);
    forall i | 0 <= i < |parts| ensures trimmed[i] == [] {
      assert parts[i] in parts;
      ContainsChar(parts[i], ',');
      forall k | 0 <= k < |parts[i]| ensures IsWhitespace(parts[i][k]) {
        JoinMembers(parts, ",", parts[i], parts[i][k]);
      }
    }
    FilterNone(trimmed, (t: string) => |t| > 0);
  }

  /** Parsing the comma-joined list of well-formed hashtags gives the list back. */
  lemma ParseJoined(tags: seq<string>)
    requires forall t | t in tags :: IsHashtag(t)
    ensures ParseHashtags(Join(tags, ",")) == tags
  {
    if tags == [] {
      ParseBlank("");
    } else {
      forall t | t in tags ensures !Contains(t, ",") {
        ContainsChar(t, ',');
      }
      SplitJoin(tags, ",");
      TrimAllTrimmed(tags);
      FilterAll(tags, (t: string) => |t| > 0);
    }
  }

  /** Trimming pieces that are already trimmed leaves them alone. */
  lemma TrimAllTrimmed(tags: seq<string>)
    requires forall t | t in tags :: IsTrimmed(t)
    ensures TrimAll(tags) == tags
  {
    forall i | 0 <= i < |tags| ensures Trim(tags[i]) == tags[i] {
      assert tags[i] in tags;
      TrimOfTrimmed(tags[i]);
    }
  }

  // ------------------------------------------------------------------- listing

  /** Copies each row's author onto it. A row whose author is missing makes the
      source dereference a null `users` and give up: no list at all. */
  function WithAuthors(rows: seq<Recommendation>, users: seq<User>): (r: Option<seq<RecommendationView>>)
    ensures r.None? <==> exists i | 0 <= i < |rows| :: FindUser(users, rows[i].userId).None?
    ensures r.Some? ==> |r.value| == |rows| && forall i | 0 <= i < |rows| ::
      && r.value[i].rec == rows[i]
      && FindUser(users, rows[i].userId).Some?
      && r.value[i].username == FindUser(users, rows[i].userId).value.username
      && r.value[i].avatarUrl == FindUser(users, rows[i].userId).value.avatarUrl
  {
    if rows == [] then Some([])
    else
      match FindUser(users, rows[0].userId)
      case None => None
      case Some(author) =>
        match WithAuthors(rows[1..], users)
        case None => None
        case Some(rest) =>
          Some([RecommendationView(rows[0], author.username, author.avatarUrl)] + rest)
  }

  /** The entry carries the `username` and `avatar_url` of its row's author. */
  predicate CarriesAuthor(v: RecommendationView, users: seq<User>) {
    && FindUser(users, v.rec.userId).Some?
    && v.username == FindUser(users, v.rec.userId).value.username
    && v.avatarUrl == FindUser(users, v.rec.userId).value.avatarUrl
  }

  /** `getRecommendations()`: every recommendation, newest first, each with its
      author's name and avatar; empty when some author cannot be joined. */
  function GetRecommendations(db: Db): (r: seq<RecommendationView>)
    reads db
    ensures SortedDesc(r, (v: RecommendationView) => v.rec.createdAt)
    ensures r != [] ==> multiset(Map(r, (v: RecommendationView) => v.rec)) == multiset(db.recommendations)
    ensures !AuthorsJoined(db.recommendations, db.users) ==> r == []
    ensures AuthorsJoined(db.recommendations, db.users) ==>
      |r| == |db.recommendations| && forall v | v in r :: CarriesAuthor(v, db.users)
  {
    var sorted := SortDesc(db.recommendations, (x: Recommendation) => x.createdAt);
    SortDescMembers(db.recommendations, (x: Recommendation) => x.createdAt);
    JoinedIndexwise(sorted, db.users);
    match WithAuthors(sorted, db.users)
    case None => []
    case Some(views) =>
      ViewsCarryAuthors(sorted, db.users, views);
      views
  }

  /** A successful join keeps the rows in order and gives each its author. */
  lemma ViewsCarryAuthors(rows: seq<Recommendation>, users: seq<User>, views: seq<RecommendationView>)
    requires WithAuthors(rows, users) == Some(views)
    ensures Map(views, (v: RecommendationView) => v.rec) == rows
    ensures forall v | v in views :: CarriesAuthor(v, users)
  {
    forall v | v in views ensures CarriesAuthor(v, users) {
      var i :| 0 <= i < |views| && views[i] == v;
    }
  }

  // ------------------------------------------------------------ adding/deleting

  /** The row that `addRecommendation` inserts. */
  function NewRecommendation(id: RowId, author: UserId, input: RecommendationInput, now: int): Recommendation {
    Recommendation(id, author, input.title, input.description, input.mediaUrl, input.link,
                   input.articleNumber, Some(ParseHashtags(input.hashtags)), now)
  }

  /** `addRecommendation(recommendation)`: a signed-in user appends a row that
      they own, with the parsed hashtags; `now` is the store's clock. */
  method AddRecommendation(db: Db, session: Option<UserId>, input: RecommendationInput, now: int) returns (status: Status)
    requires db.Valid()
    modifies db
    ensures db.Valid()
    ensures match old(db.CurrentUser(session))
      case None =>
        status == Failed(NotAuthenticated) && db.State() == old(db.State())
      case Some(u) =>
        && status == Done
        && db.State() == old(db.State()).(
             recommendations := old(db.recommendations) + [NewRecommendation(old(db.nextId), u.id, input, now)],
             nextId := old(db.nextId) + 1)
  {
    var user := db.CurrentUser(session);
    if user.None? {
      return Failed(NotAuthenticated);
    }
    var row := NewRecommendation(db.nextId, user.value.id, input, now);
    db.InsertRecommendation(row);
    status := Done;
  }

  /** `deleteRecommendation(id)`: only the author or an administrator removes
      the row; everyone else gets an error and the store is left alone. */
  method DeleteRecommendation(db: Db, session: Option<UserId>, id: RowId) returns (status: Status)
    requires db.Valid()
    modifies db
    ensures db.Valid()
    ensures status.Done? ==> db.State() == old(db.State()).(
      recommendations := Filter(old(db.recommendations), (r: Recommendation) => r.id != id))
    ensures status.Failed? ==> db.State() == old(db.State())
    ensures old(db.CurrentUser(session)).None? ==> status == Failed(NotAuthenticated)
    ensures old(db.CurrentUser(session)).Some? ==>
      var u := old(db.CurrentUser(session)).value;
      match Find(old(db.recommendations), (r: Recommendation) => r.id == id)
      case None => status == Failed(RowNotFound)
      case Some(rec) => status == if OwnerOrAdmin(u, rec.userId) then Done else Failed(NoDeletePermission)
  {
    var user := db.CurrentUser(session);
    if user.None? {
      return Failed(NotAuthenticated);
    }
    var found := Find(db.recommendations, (r: Recommendation) => r.id == id);
    if found.None? {
      return Failed(RowNotFound);
    }
    if !OwnerOrAdmin(user.value, found.value.userId) {
      return Failed(NoDeletePermission);
    }
    KeyedFilter(db.recommendations, (r: Recommendation) => r.id != id, (r: Recommendation) => r.id, db.nextId);
    db.recommendations := Filter(db.recommendations, (r: Recommendation) => r.id != id);
    status := Done;
  }

  // ------------------------------------------------------------------ ranking

  /** `data.flatMap(rec => rec.hashtags || [])`: a null column counts as no tags. */
  function AllTags(recs: seq<Recommendation>): (tags: seq<string>)
    ensures forall t | t in tags :: exists r | r in recs :: r.hashtags.Some? && t in r.hashtags.value
    ensures forall r, t | r in recs && r.hashtags.Some? && t in r.hashtags.value :: t in tags
  {
    if recs == [] then []
    else
      var own := match recs[0].hashtags case None => [] case Some(h) => h;
      var rest := AllTags(recs[1..]);
      assert forall t | t in rest :: exists r | r in recs :: r.hashtags.Some? && t in r.hashtags.value by {
        forall t | t in rest ensures exists r | r in recs :: r.hashtags.Some? && t in r.hashtags.value {
          var r :| r in recs[1..] && r.hashtags.Some? && t in r.hashtags.value;
          assert r in recs;
        }
      }
      assert forall r, t | r in recs && r.hashtags.Some? && t in r.hashtags.value :: t in own + rest by {
        forall r, t | r in recs && r.hashtags.Some? && t in r.hashtags.value ensures t in own + rest {
          if r != recs[0] {
            assert r in recs[1..];
          }
        }
      }
      own + rest
  }

  /** The tags of two lists of rows are the tags of the first, then those of
      the second; so a tag's count adds up over the rows. */
  lemma AllTagsAppend(a: seq<Recommendation>, b: seq<Recommendation>)
    ensures AllTags(a + b) == AllTags(a) + AllTags(b)
    ensures forall t :: Count(AllTags(a + b), t) == Count(AllTags(a), t) + Count(AllTags(b), t)
  {
    AllTagsConcat(a, b);
    forall t ensures Count(AllTags(a + b), t) == Count(AllTags(a), t) + Count(AllTags(b), t) {
      CountAppend(AllTags(a), AllTags(b), t);
    }
  }

  /** The sequence half of `AllTagsAppend`, by induction on `a`. */
  lemma {:induction false} AllTagsConcat(a: seq<Recommendation>, b: seq<Recommendation>)
    ensures AllTags(a + b) == AllTags(a) + AllTags(b)
  {
    if a == [] {
      assert a + b == b;
    } else {
      var own := match a[0].hashtags case None => [] case Some(h) => h;
      assert (a + b)[0] == a[0];
      assert (a + b)[1..] == a[1..] + b;
      AllTagsConcat(a[1..], b);
      calc {
        AllTags(a + b);
        own + AllTags(a[1..] + b);
        own + (AllTags(a[1..]) + AllTags(b));
        (own + AllTags(a[1..])) + AllTags(b);
        AllTags(a) + AllTags(b);
      }
    }
  }

  /** `getPopularHashtags()` over the `hashtags` column of every row: at most
      ten distinct tags that occur somewhere, most used first, and no tag left
      out is used more often than a tag returned (a tag is left out only when
      ten are already returned). */
  method GetPopularHashtags(recs: seq<Recommendation>) returns (top: seq<string>)
    ensures |top| <= 10
    ensures NoDuplicates(top)
    ensures forall t | t in top :: t in AllTags(recs)
    ensures forall i, j | 0 <= i < j < |top| :: Count(AllTags(recs), top[i]) >= Count(AllTags(recs), top[j])
    ensures forall t | t in AllTags(recs) && t !in top ::
      |top| == 10 && forall u | u in top :: Count(AllTags(recs), t) <= Count(AllTags(recs), u)
  {
    var allTags := AllTags(recs);
    var tagCounts, keys := CountTags(allTags);
    var entries := seq(|keys|, k requires 0 <= k < |keys| => (keys[k], tagCounts[keys[k]]));
    var sorted := SortDesc(entries, (e: (string, nat)) => e.1);
    var n := if |sorted| < 10 then |sorted| else 10;
    top := seq(n, k requires 0 <= k < n => sorted[k].0);
    RankingProperties(allTags, keys, entries, sorted, top);
  }

  /** The counting loop of `getPopularHashtags`, over a dictionary with no
      inherited keys: `tagCounts[tag]` is the number of occurrences of each
      tag, and `keys` lists each distinct tag once. */
  method CountTags(allTags: seq<string>) returns (tagCounts: map<string, nat>, keys: seq<string>)
    ensures NoDuplicates(keys)
    ensures forall t :: t in tagCounts <==> t in keys
    ensures forall t :: t in keys <==> t in allTags
    ensures forall t | t in tagCounts :: tagCounts[t] == Count(allTags, t)
  {
    tagCounts, keys := map[], [];
    var i := 0;
    while i < |allTags|
      invariant 0 <= i <= |allTags|
      invariant NoDuplicates(keys)
      invariant forall t :: t in tagCounts <==> t in keys
      invariant forall t :: t in keys <==> t in allTags[..i]
      invariant forall t | t in tagCounts :: tagCounts[t] == Count(allTags[..i], t)
    {
      var tag := allTags[i];
      assert allTags[..i + 1] == allTags[..i] + [tag];
      forall t ensures Count(allTags[..i + 1], t) == Count(allTags[..i], t) + (if t == tag then 1 else 0) {
        CountAppend(allTags[..i], [tag], t);
      }
      if tag in tagCounts {
        tagCounts := tagCounts[tag := tagCounts[tag] + 1];
      } else {
        tagCounts := tagCounts[tag := 1];
        keys := keys + [tag];
      }
      i := i + 1;
    }
    assert allTags[..i] == allTags;
  }

  // --------------------------------------------------- the tally as written

  /** A JavaScript value as the tally loop can meet it: `undefined`, a count,
      a string, one of `Object.prototype`'s methods (by the name its text
      shows), or `Object.prototype` itself. */
  datatype JsValue = Undefined | Num(n: nat) | Str(s: string) | NativeFunction(name: string) | PrototypeObject

  /** The properties every plain object `{}` inherits from `Object.prototype`. */
  const InheritedNames: set<string> := {
    "constructor", "__defineGetter__", "__defineSetter__", "hasOwnProperty",
    "__lookupGetter__", "__lookupSetter__", "isPrototypeOf", "propertyIsEnumerable",
    "toString", "valueOf", "toLocaleString", "__proto__"}

  /** `tagCounts[key]` on an object created by `{}` whose own properties are
      `own`: an own property first, then an inherited one, else `undefined`. */
  function Lookup(own: map<string, JsValue>, key: string): (v: JsValue)
    ensures key in own ==> v == own[key]
    ensures key !in own && key !in InheritedNames ==> v == Undefined
    ensures key !in own && key in InheritedNames ==> v.NativeFunction? || v.PrototypeObject?
  {
    if key in own then own[key]
    else if key == "__proto__" then PrototypeObject
    else if key == "constructor" then NativeFunction("Object")
    else if key in InheritedNames then NativeFunction(key)
    else Undefined
  }

  /** `(v || 0) + 1`: a falsy value counts as 0; `+` adds numbers and
      concatenates once either side is a string, and a function or an object
      turns into its text first (the text of V8 is modelled). */
  function Bump(v: JsValue): (w: JsValue)
    ensures v.Undefined? ==> w == Num(1)
    ensures v.Num? ==> w == Num(v.n + 1)
    ensures v.NativeFunction? || v.PrototypeObject? ==> w.Str?
  {
    match v
    case Undefined => Num(1)
    case Num(n) => Num(n + 1)
    case Str(s) => if s == "" then Num(1) else Str(s + "1")
    case NativeFunction(name) => Str("function " + name + "() { [native code] }1")
    case PrototypeObject => Str("[object Object]1")
  }

  /** `tagCounts[key] = v`: a new or replaced own property, except that the
      inherited `__proto__` setter ignores a value that is not an object. */
  function Assign(own: map<string, JsValue>, key: string, v: JsValue): (r: map<string, JsValue>)
    requires !v.PrototypeObject?
    ensures key == "__proto__" ==> r == own
    ensures key != "__proto__" ==> r == own[key := v]
  {
    if key == "__proto__" then own else own[key := v]
  }

  /** The own properties of `tagCounts` after the loop at
      js/recommendations.js:120-123, as the code is written: the tags are
      looked up on a plain object, so the names it inherits take part. */
  function TallyAsWritten(tags: seq<string>): (own: map<string, JsValue>)
    ensures "__proto__" !in own
    ensures forall k | k in own :: k in tags
    decreases |tags|
  {
    if tags == [] then map[]
    else
      var before := TallyAsWritten(tags[..|tags| - 1]);
      var tag := tags[|tags| - 1];
      var v := Bump(Lookup(before, tag));
      assert forall k | k in before :: k in tags by {
        forall k | k in before ensures k in tags {
          assert k in tags[..|tags| - 1];
        }
      }
      Assign(before, tag, v)
  }

  /** Away from the inherited names the tally as written is the intended
      one: its own keys are the tags, each holding its number of occurrences. */
  lemma {:induction false} TallyOfOrdinaryTags(tags: seq<string>)
    requires forall t | t in tags :: t !in InheritedNames
    ensures forall t :: t in TallyAsWritten(tags) <==> t in tags
    ensures forall t | t in tags :: TallyAsWritten(tags)[t] == Num(Count(tags, t))
    decreases |tags|
  {
    if tags != [] {
      var init := tags[..|tags| - 1];
      var tag := tags[|tags| - 1];
      assert tags == init + [tag];
      assert forall t | t in init :: t in tags;
      TallyOfOrdinaryTags(init);
      var before := TallyAsWritten(init);
      OrdinaryStep(before, tag);
      CountedStep(init, tag, before);
    }
  }

  /** Counting one more occurrence of `tag` keeps a tally of counts exact. */
  lemma CountedStep(init: seq<string>, tag: string, before: map<string, JsValue>)
    requires forall t :: t in before <==> t in init
    requires forall t | t in init :: before[t] == Num(Count(init, t))
    ensures var after := before[tag := if tag in before then Bump(before[tag]) else Num(1)];
      && (forall t :: t in after <==> t in init + [tag])
      && (forall t | t in init + [tag] :: after[t] == Num(Count(init + [tag], t)))
  {
    var after := before[tag := if tag in before then Bump(before[tag]) else Num(1)];
    forall t | t in init + [tag] ensures after[t] == Num(Count(init + [tag], t)) {
      CountAppend(init, [tag], t);
      if t != tag {
        assert t in init;
      }
    }
  }

  /** One step of the tally on a tag that is not an inherited name: the tag
      gets an own property one higher than before, or 1. */
  lemma OrdinaryStep(before: map<string, JsValue>, tag: string)
    requires tag !in InheritedNames
    ensures Assign(before, tag, Bump(Lookup(before, tag))) ==
      before[tag := if tag in before then Bump(before[tag]) else Num(1)]
  {
    assert tag != "__proto__";
  }

  /** A tag named `__proto__` is lost: the tally reads `Object.prototype`,
      the setter ignores the string it is given, and `Object.entries` of the
      tally is empty, so the source ranks no tag at all. */
  lemma ProtoTagDropped()
    ensures Count(["__proto__"], "__proto__") == 1
    ensures TallyAsWritten(["__proto__"]) == map[]
  {
    assert ["__proto__"][..0] == [];
  }

  /** A tag named `constructor` gets a string as its count, so the comparator
      `b[1] - a[1]` yields NaN and the order of the ranking is unspecified. */
  lemma ConstructorCountIsText()
    ensures TallyAsWritten(["constructor"]) == map["constructor" := Str("function Object() { [native code] }1")]
  {
    assert ["constructor"][..0] == [];
    assert "constructor" != "__proto__";
    assert Lookup(map[], "constructor") == NativeFunction("Object");
    assert "function " + "Object" + "() { [native code] }1" == "function Object() { [native code] }1";
  }

  /** The intended ranking keeps a tag named `__proto__`. */
  method ProtoTagKept() returns (top: seq<string>)
    ensures top == ["__proto__"]
  {
    var rec := Recommendation(0, "author", "", "", "", "", "", Some(["__proto__"]), 0);
    assert AllTags([rec]) == ["__proto__"] by {
      assert [rec][1..] == [];
    }
    top := GetPopularHashtags([rec]);
    DistinctWithin(top, {"__proto__"});
    assert "__proto__" in top;
  }

  /** What the ranking promises follows from sorting entries that pair each
      distinct tag with its number of occurrences. */
  lemma RankingProperties(allTags: seq<string>, keys: seq<string>, entries: seq<(string, nat)>,
                          sorted: seq<(string, nat)>, top: seq<string>)
    requires NoDuplicates(keys)
    requires forall t :: t in keys <==> t in allTags
    requires |entries| == |keys|
    requires forall k | 0 <= k < |keys| :: entries[k] == (keys[k], Count(allTags, keys[k]))
    requires sorted == SortDesc(entries, (e: (string, nat)) => e.1)
    requires |top| == if |sorted| < 10 then |sorted| else 10
    requires forall k | 0 <= k < |top| :: top[k] == sorted[k].0
    ensures |top| <= 10
    ensures NoDuplicates(top)
    ensures forall t | t in top :: t in allTags
    ensures forall i, j | 0 <= i < j < |top| :: Count(allTags, top[i]) >= Count(allTags, top[j])
    ensures forall t | t in allTags && t !in top ::
      |top| == 10 && forall u | u in top :: Count(allTags, t) <= Count(allTags, u)
  {
    RankedEntries(allTags, keys, entries, sorted);
    forall i, j | 0 <= i < j < |top| ensures top[i] != top[j] {
      assert sorted[i] in sorted && sorted[j] in sorted;
      assert sorted[i] != sorted[j];
    }
    forall i | 0 <= i < |top| ensures top[i] in allTags && sorted[i].1 == Count(allTags, top[i]) {
      assert sorted[i] in sorted;
    }
    forall t | t in allTags && t !in top
      ensures |top| == 10 && forall u | u in top :: Count(allTags, t) <= Count(allTags, u)
    {
      LeftOutRanksLower(allTags, sorted, top, t);
    }
  }

  /** The sorted entries: each distinct tag exactly once, with its count,
      counts never increasing. */
  lemma RankedEntries(allTags: seq<string>, keys: seq<string>, entries: seq<(string, nat)>,
                      sorted: seq<(string, nat)>)
    requires NoDuplicates(keys)
    requires forall t :: t in keys <==> t in allTags
    requires |entries| == |keys|
    requires forall k | 0 <= k < |keys| :: entries[k] == (keys[k], Count(allTags, keys[k]))
    requires sorted == SortDesc(entries, (e: (string, nat)) => e.1)
    ensures NoDuplicates(sorted)
    ensures forall i, j | 0 <= i < j < |sorted| :: sorted[i].1 >= sorted[j].1
    ensures forall e | e in sorted :: e.0 in allTags && e.1 == Count(allTags, e.0)
    ensures forall t | t in allTags :: (t, Count(allTags, t)) in sorted
  {
    var key := (e: (string, nat)) => e.1;
    SortDescMembers(entries, key);
    assert NoDuplicates(entries) by {
      forall i, j | 0 <= i < j < |entries| ensures entries[i] != entries[j] {
        assert entries[i].0 == keys[i] && entries[j].0 == keys[j];
      }
    }
    SortDescNoDuplicates(entries, key);
    forall e | e in sorted ensures e.0 in allTags && e.1 == Count(allTags, e.0) {
      assert e in entries;
      var k :| 0 <= k < |entries| && entries[k] == e;
    }
    forall t | t in allTags ensures (t, Count(allTags, t)) in sorted {
      var k :| 0 <= k < |keys| && keys[k] == t;
      assert entries[k] in entries;
    }
  }

  /** A tag that is not among the first ten (or fewer) sorted entries sits
      after all of them, so ten were returned and none is used less. */
  lemma LeftOutRanksLower(allTags: seq<string>, sorted: seq<(string, nat)>, top: seq<string>, t: string)
    requires NoDuplicates(sorted)
    requires forall i, j | 0 <= i < j < |sorted| :: sorted[i].1 >= sorted[j].1
    requires forall e | e in sorted :: e.0 in allTags && e.1 == Count(allTags, e.0)
    requires (t, Count(allTags, t)) in sorted
    requires |top| == if |sorted| < 10 then |sorted| else 10
    requires forall k | 0 <= k < |top| :: top[k] == sorted[k].0
    requires t !in top
    ensures |top| == 10 && forall u | u in top :: Count(allTags, t) <= Count(allTags, u)
  {
    var p :| 0 <= p < |sorted| && sorted[p] == (t, Count(allTags, t));
    assert forall q | 0 <= q < |top| :: sorted[q].0 != t;
    assert p >= |top|;
    forall u | u in top ensures Count(allTags, t) <= Count(allTags, u) {
      var q :| 0 <= q < |top| && top[q] == u;
      assert sorted[q] in sorted;
    }
  }
}
