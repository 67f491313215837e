/** Per-network rules: the `SocialNetwork` enum, which appears in three
    near-identical copies in the repository (src/social_network, src/utils,
    src/fragmentor.py). Every method there is a total function over two
    variants; the `else: raise ValueError` branches are unreachable. */
module SocialNetworks {
  import opened Text
  import opened Frames

  datatype Network = Instagram | Facebook

  /** The enum's value: the network's home URL. */
  function BaseUrl(n: Network): string {
    match n
    case Instagram => "https://www.instagram.com/"
    case Facebook => "https://www.facebook.com/"
  }

  /** The bare domain used in search queries. */
  function Domain(n: Network): string {
    match n
    case Instagram => "instagram.com"
    case Facebook => "facebook.com"
  }

  /** Path fragments that mark a link as pointing at a post. */
  function PostMarkers(n: Network): seq<string> {
    match n
    case Instagram => ["p/", "tv/", "reel/", "video/", "photo/"]
    case Facebook => ["posts/", "videos/", "photos/", "groups/"]
  }

  predicate HasPostMarker(n: Network, link: string) {
    exists i | 0 <= i < |PostMarkers(n)| :: Contains(link, PostMarkers(n)[i])
  }

  /** `is_valid_link`: the home URL and some post marker both occur in the
      link, each anywhere in it. */
  predicate IsValidLink(n: Network, link: string) {
    Contains(link, BaseUrl(n)) && HasPostMarker(n, link)
  }

  /** The Instagram rule spelled out with its literal strings. */
  lemma InstagramRule(link: string)
    ensures IsValidLink(Instagram, link) <==>
      && Contains(link, "https://www.instagram.com/")
      && (|| Contains(link, "p/") || Contains(link, "tv/") || Contains(link, "reel/")
          || Contains(link, "video/") || Contains(link, "photo/"))
  {
    var m := PostMarkers(Instagram);
    if Contains(link, "p/") { assert Contains(link, m[0]); }
    if Contains(link, "tv/") { assert Contains(link, m[1]); }
    if Contains(link, "reel/") { assert Contains(link, m[2]); }
    if Contains(link, "video/") { assert Contains(link, m[3]); }
    if Contains(link, "photo/") { assert Contains(link, m[4]); }
  }

  /** The Facebook rule spelled out with its literal strings. */
  lemma FacebookRule(link: string)
    ensures IsValidLink(Facebook, link) <==>
      && Contains(link, "https://www.facebook.com/")
      && (|| Contains(link, "posts/") || Contains(link, "videos/")
          || Contains(link, "photos/") || Contains(link, "groups/"))
  {
    var m := PostMarkers(Facebook);
    if Contains(link, "posts/") { assert Contains(link, m[0]); }
    if Contains(link, "videos/") { assert Contains(link, m[1]); }
    if Contains(link, "photos/") { assert Contains(link, m[2]); }
    if Contains(link, "groups/") { assert Contains(link, m[3]); }
  }

  /** A valid link is at least as long as the home URL, so never empty. */
  lemma ValidLinkNotEmpty(n: Network, link: string)
    requires IsValidLink(n, link)
    ensures |link| >= |BaseUrl(n)| > 0
  {
    ContainsShorter(link, BaseUrl(n));
  }

  /** A post link is accepted. */
  lemma AcceptsPostLink()
    ensures IsValidLink(Instagram, "https://www.instagram.com/p/abc123")
  {
    var s := "https://www.instagram.com/p/abc123";
    assert OccursAt(s, "https://www.instagram.com/", 0);
    assert OccursAt(s, PostMarkers(Instagram)[0], 26);
  }

  /** Instagram's explore page: the home URL followed by `explore/`. */
  const ExplorePage := "https://www.instagram.com/explore/"

  /** The explore page carries the home URL but no post marker. */
  lemma RejectsExplorePage()
    ensures !IsValidLink(Instagram, ExplorePage)
  {
    var ms := PostMarkers(Instagram);
    forall k | 0 <= k < |ms| ensures !Contains(ExplorePage, ms[k]) {
      ExploreLacksMarker(ms[k]);
    }
  }

  /** Every Instagram marker is a `p`, `v`, `l` or `o` followed by a slash. */
  lemma InstagramMarkerEnd(m: string)
    requires m in PostMarkers(Instagram)
    ensures |m| >= 2 && m[|m| - 1] == '/' && m[|m| - 2] in {'p', 'v', 'l', 'o'}
  {
  }

  /** In the explore page a slash follows only `:`, `/`, `m` or `e`. */
  lemma ExploreSlashes(e: int)
    requires 1 <= e < |ExplorePage| && ExplorePage[e] == '/'
    ensures ExplorePage[e - 1] in {':', '/', 'm', 'e'}
  {
    if e < 26 {
      assert ExplorePage[..26] == "https://www.instagram.com/";
      assert ExplorePage[..26][e] == '/';
    } else {
      assert ExplorePage[26..] == "explore/";
      assert ExplorePage[26..][e - 26] == '/';
    }
  }

  /** No Instagram marker occurs in the explore page: a marker's last two
      characters would have to be a letter pair the page does not have. */
  lemma ExploreLacksMarker(m: string)
    requires m in PostMarkers(Instagram)
    ensures !Contains(ExplorePage, m)
  {
    if Contains(ExplorePage, m) {
      var i :| 0 <= i <= |ExplorePage| - |m| && OccursAt(ExplorePage, m, i);
      InstagramMarkerEnd(m);
      OccurrenceEnd(ExplorePage, m, i);
      ExploreSlashes(i + |m| - 1);
      assert false;
    }
  }

  /** Without the exact home URL (here: no `https://www.`) a link is rejected
      even though it has a post marker. */
  lemma RejectsMissingBase()
    ensures !IsValidLink(Instagram, "http://instagram.com/p/x")
  {
  }

  /** Markers are matched anywhere in the link, not only in its path: a
      profile URL with a trailing slash after a name ending in `p` passes. */
  lemma MarkerMatchedAnywhere()
    ensures IsValidLink(Instagram, "https://www.instagram.com/shop/")
  {
    var s := "https://www.instagram.com/shop/";
    assert OccursAt(s, "https://www.instagram.com/", 0);
    assert OccursAt(s, PostMarkers(Instagram)[0], 29);
  }

  /** A Facebook `posts/` link under a user's page is accepted. */
  lemma AcceptsFacebookPost()
    ensures IsValidLink(Facebook, "https://www.facebook.com/prefeitura_x/posts/999")
  {
    var s := "https://www.facebook.com/prefeitura_x/posts/999";
    assert OccursAt(s, "https://www.facebook.com/", 0);
    assert OccursAt(s, PostMarkers(Facebook)[0], 38);
  }

  /** `get_post_url_column`: where the post URL lives in each export. */
  function PostUrlColumn(n: Network): (c: string)
    ensures n == Instagram ==> c == "url"
    ensures n == Facebook ==> c == "postUrl"
  {
    match n
    case Instagram => "url"
    case Facebook => "postUrl"
  }

  /** `generate_profile_url`: the home URL followed by the user name. */
  function ProfileUrl(n: Network, username: string): (u: string)
    ensures StartsWith(u, BaseUrl(n))
    ensures u[|BaseUrl(n)|..] == username
  {
    BaseUrl(n) + username
  }

  /** The user name can be read back from a profile URL. */
  lemma ProfileUrlInjective(n: Network, a: string, b: string)
    requires ProfileUrl(n, a) == ProfileUrl(n, b)
    ensures a == b
  {
  }

  /** The fixed text in front of the post text in a search query. */
  function QueryPrefix(n: Network, username: string): string {
    "site: " + Domain(n) + " username: " + username + " "
  }

  /** `generate_query`: `site: <domain> username: <user> <text>`. */
  function Query(n: Network, text: string, username: string): (q: string)
    ensures StartsWith(q, "site: " + Domain(n) + " username: ")
    ensures EndsWith(q, text)
    ensures |q| == |QueryPrefix(n, username)| + |text|
    ensures q[|"site: " + Domain(n) + " username: "|..|q| - |text|] == username + " "
  {
    QueryPrefix(n, username) + text
  }

  /** With the same user, different post texts give different queries. */
  lemma QueryDeterminesText(n: Network, a: string, b: string, username: string)
    requires Query(n, a, username) == Query(n, b, username)
    ensures a == b
  {
    var q := Query(n, a, username);
    assert q[|QueryPrefix(n, username)|..] == a;
  }

  /** `generate_alternative_query`: `site:+<domain>+<text>`. */
  function AlternativeQuery(n: Network, text: string): (q: string)
    ensures StartsWith(q, "site:+" + Domain(n) + "+")
    ensures q[|Domain(n)| + 7..] == text
  {
    "site:+" + Domain(n) + "+" + text
  }

  /** One entry of `mapping_columns`: copy `source` into `target`, or, when
      `source` is empty, fill `target` with `default`. */
  datatype ColumnMapping = ColumnMapping(source: string, target: string, default: Cell)

  function Targets(ms: seq<ColumnMapping>): (ts: seq<string>)
    ensures |ts| == |ms| && forall i | 0 <= i < |ms| :: ts[i] == ms[i].target
  {
    seq(|ms|, i requires 0 <= i < |ms| => ms[i].target)
  }

  /** `mapping_columns`: the export's schema translated column by column. */
  function MappingColumns(n: Network): seq<ColumnMapping> {
    match n
    case Instagram => [
      ColumnMapping("post_owner.name", "name", Text("")),
      ColumnMapping("creation_time", "time", Text("")),
      ColumnMapping("statistics.like_count", "likes", Text("")),
      ColumnMapping("text", "message", Text("")),
      ColumnMapping("post_owner.id", "profileId", Text("")),
      ColumnMapping("", "commentId", Null),
      ColumnMapping("post_owner.username", "username", Text("")),
      ColumnMapping("", "parentCommentId", Null),
      ColumnMapping("", "replies", Null),
      ColumnMapping("", "reply", Flag(false)),
      ColumnMapping("", "shortcode", Text("")),
      ColumnMapping("", "reaction", Null),
      ColumnMapping("", "isVideo", Text("")),
      ColumnMapping("statistics.comment_count", "comments", Text("")),
      ColumnMapping("", "url", Text("")),
      ColumnMapping("", "profileUrl", Text("")),
      ColumnMapping("statistics.views", "videoViewCount", Text("")),
      ColumnMapping("", "isPrivateUser", Null),
      ColumnMapping("", "isVerifiedUser", Null),
      ColumnMapping("", "displayUrl", Text("")),
      ColumnMapping("", "followersCount", Text("")),
      ColumnMapping("id", "id", Text("")),
      ColumnMapping("", "caption", Null),
      ColumnMapping("", "thumbnail", Null),
      ColumnMapping("", "accessibilityCaption", Null),
      ColumnMapping("", "commentsDisabled", Null),
      ColumnMapping("", "videoDuration", Text("")),
      ColumnMapping("media_type", "productType", Text("")),
      ColumnMapping("", "isSponsored", Flag(false)),
      ColumnMapping("", "locationName", Null),
      ColumnMapping("", "mediaCount", Null),
      ColumnMapping("multimedia", "media", Text("")),
      ColumnMapping("", "owner", Null),
      ColumnMapping("", "profileImage", Null),
      ColumnMapping("hashtags", "terms", Text(""))
    ]
    case Facebook => [
      ColumnMapping("id", "id", Text("")),
      ColumnMapping("post_owner.name", "name", Text("")),
      ColumnMapping("post_owner.username", "nickName", Text("")),
      ColumnMapping("creation_time", "time", Text("")),
      ColumnMapping("text", "message", Text("")),
      ColumnMapping("post_owner.id", "profileId", Text("")),
      ColumnMapping("", "postId", Text("")),
      ColumnMapping("multimedia", "media", Text("")),
      ColumnMapping("", "attachments", Null),
      ColumnMapping("statistics.comment_count", "countComment", Text("")),
      ColumnMapping("statistics.views", "countSeen", Text("")),
      ColumnMapping("statistics.share_count", "countShare", Text("")),
      ColumnMapping("statistics.reaction_count", "countReaction", Text("")),
      ColumnMapping("statistics.like_count", "countLike", Text("")),
      ColumnMapping("statistics.love_count", "countLove", Text("")),
      ColumnMapping("statistics.care_count", "countCare", Text("")),
      ColumnMapping("statistics.haha_count", "countHaha", Text("")),
      ColumnMapping("statistics.wow_count", "countWow", Text("")),
      ColumnMapping("statistics.sad_count", "countSad", Text("")),
      ColumnMapping("statistics.angry_count", "countAngry", Text("")),
      ColumnMapping("", "profileUrl", Text("")),
      ColumnMapping("", "postUrl", Text("")),
      ColumnMapping("", "adUrl", Text(""))
    ]
  }

  /** The target column names of the Instagram table, in order. */
  lemma InstagramTargets()
    ensures Targets(MappingColumns(Instagram)) == [
      "name", "time", "likes", "message", "profileId", "commentId", "username",
      "parentCommentId", "replies", "reply", "shortcode", "reaction", "isVideo", "comments",
      "url", "profileUrl", "videoViewCount",
      "isPrivateUser", "isVerifiedUser", "displayUrl", "followersCount", "id",
      "caption", "thumbnail", "accessibilityCaption", "commentsDisabled", "videoDuration",
      "productType", "isSponsored", "locationName", "mediaCount", "media", "owner",
      "profileImage", "terms"]
  {
  }

  /** The target column names of the Facebook table, in order. */
  lemma FacebookTargets()
    ensures Targets(MappingColumns(Facebook)) == [
      "id", "name", "nickName", "time", "message", "profileId", "postId", "media",
      "attachments", "countComment", "countSeen", "countShare", "countReaction", "countLike",
      "countLove", "countCare", "countHaha", "countWow", "countSad", "countAngry",
      "profileUrl", "postUrl", "adUrl"]
  {
  }

  /** Each network's table names every target once, includes the post URL
      column and `profileUrl`, and starts with a copied (not defaulted)
      column, which is what gives the rebuilt frame its rows. */
  lemma MappingTableShape(n: Network)
    ensures Distinct(Targets(MappingColumns(n)))
    ensures PostUrlColumn(n) in Targets(MappingColumns(n))
    ensures "profileUrl" in Targets(MappingColumns(n))
    ensures MappingColumns(n)[0].source != ""
  {
    var ts := Targets(MappingColumns(n));
    if n == Instagram {
      InstagramTargets();
      InstagramTargetsDistinct();
      assert ts[14] == "url" && ts[15] == "profileUrl";
    } else {
      FacebookTargets();
      FacebookTargetsDistinct();
      assert ts[20] == "profileUrl" && ts[21] == "postUrl";
    }
  }

  /** The 35 Instagram targets, checked as two halves and their overlap. */
  lemma InstagramTargetsDistinct()
    ensures Distinct([
      "name", "time", "likes", "message", "profileId", "commentId", "username",
      "parentCommentId", "replies", "reply", "shortcode", "reaction", "isVideo", "comments",
      "url", "profileUrl", "videoViewCount",
      "isPrivateUser", "isVerifiedUser", "displayUrl", "followersCount", "id",
      "caption", "thumbnail", "accessibilityCaption", "commentsDisabled", "videoDuration",
      "productType", "isSponsored", "locationName", "mediaCount", "media", "owner",
      "profileImage", "terms"])
  {
    var a := ["name", "time", "likes", "message", "profileId", "commentId", "username",
      "parentCommentId", "replies", "reply", "shortcode", "reaction", "isVideo", "comments",
      "url", "profileUrl", "videoViewCount"];
    var b := ["isPrivateUser", "isVerifiedUser", "displayUrl", "followersCount", "id",
      "caption", "thumbnail", "accessibilityCaption", "commentsDisabled", "videoDuration",
      "productType", "isSponsored", "locationName", "mediaCount", "media", "owner",
      "profileImage", "terms"];
    assert Distinct(a);
    assert Distinct(b);
    assert Disjoint(a, b);
    DistinctConcat(a, b);
    assert a + b == [
      "name", "time", "likes", "message", "profileId", "commentId", "username",
      "parentCommentId", "replies", "reply", "shortcode", "reaction", "isVideo", "comments",
      "url", "profileUrl", "videoViewCount",
      "isPrivateUser", "isVerifiedUser", "displayUrl", "followersCount", "id",
      "caption", "thumbnail", "accessibilityCaption", "commentsDisabled", "videoDuration",
      "productType", "isSponsored", "locationName", "mediaCount", "media", "owner",
      "profileImage", "terms"];
  }

  lemma FacebookTargetsDistinct()
    ensures Distinct([
      "id", "name", "nickName", "time", "message", "profileId", "postId", "media",
      "attachments", "countComment", "countSeen", "countShare", "countReaction", "countLike",
      "countLove", "countCare", "countHaha", "countWow", "countSad", "countAngry",
      "profileUrl", "postUrl", "adUrl"])
  {
  }

  /** Only the Instagram table produces a `username` column; Facebook's
      carries the user name as `nickName`. */
  lemma UsernameTarget(n: Network)
    ensures "username" in Targets(MappingColumns(n)) <==> n == Instagram
  {
    var ts := Targets(MappingColumns(n));
    if n == Instagram {
      InstagramTargets();
      assert ts[6] == "username";
    } else {
      FacebookTargets();
    }
  }
}
