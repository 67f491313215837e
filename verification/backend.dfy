/** What the search back-ends answer, seen from the providers: the network
    is not modelled, each back-end is an oracle passed in by the caller. */
module Backends {
  import opened Results

  /** One search hit: its `link` (or `url`) and its `title`. */
  datatype Item = Item(link: string, title: string)

  /** A back-end answer: the hits in the order the back-end gives them, or
      an HTTP error with its status code. A missing `items` entry is an
      empty list of hits. */
  datatype Response = Success(items: seq<Item>) | HttpError(status: int)

  /** HTTP 429 Too Many Requests: the quota is exhausted. */
  const TooManyRequests := 429

  /** The validator the providers call as
      `is_valid_link(link=…, title=…, post_text=…)`. */
  type Validator = (string, string, string) -> bool

  /** The validator never accepts an empty link (true of every per-network
      rule, see `SocialNetworks.ValidLinkNotEmpty`). */
  ghost predicate RejectsEmpty(valid: Validator) {
    forall title: string, postText: string :: !valid("", title, postText)
  }

  /** A provider's state after a search, and the URL the search returned
      (`""` when nothing was found). */
  datatype Searched<S> = Searched(state: S, url: string)

  /** The position of the first element satisfying `p`, if any. */
  function FirstWhere<T>(s: seq<T>, p: T -> bool): (r: Option<nat>)
    ensures r.Some? ==> r.value < |s| && p(s[r.value])
    ensures r.Some? ==> forall j | 0 <= j < r.value :: !p(s[j])
    ensures r.None? <==> forall j | 0 <= j < |s| :: !p(s[j])
    decreases |s|
  {
    if s == [] then None
    else if p(s[0]) then Some(0)
    else match FirstWhere(s[1..], p)
      case None => None
      case Some(i) => Some(i + 1)
  }

  /** The first hit, in back-end order, that the validator accepts for
      this post text. */
  function FirstValid(items: seq<Item>, valid: Validator, postText: string): (r: Option<nat>)
    ensures r.Some? ==> r.value < |items| && valid(items[r.value].link, items[r.value].title, postText)
    ensures r.Some? ==> forall j | 0 <= j < r.value :: !valid(items[j].link, items[j].title, postText)
    ensures r.None? <==> forall j | 0 <= j < |items| :: !valid(items[j].link, items[j].title, postText)
  {
    FirstWhere(items, (it: Item) => valid(it.link, it.title, postText))
  }

  /** A hit the validator accepts has a non-empty link when the validator
      rejects empty links. */
  lemma FirstValidNotEmpty(items: seq<Item>, valid: Validator, postText: string)
    requires RejectsEmpty(valid) && FirstValid(items, valid, postText).Some?
    ensures items[FirstValid(items, valid, postText).value].link != ""
  {
    var i := FirstValid(items, valid, postText).value;
    if items[i].link == "" {
      assert !valid("", items[i].title, postText);
    }
  }
}
